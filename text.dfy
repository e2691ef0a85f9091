/**
 * Text primitives the whole model shares. A Rust `String` is a Dafny `string` (a sequence of
 * Unicode scalar values); `str::len` counts the bytes of its UTF-8 encoding, which is
 * `ByteLen` here. Whitespace is the Unicode White_Space property that `char::is_whitespace`
 * tests and that `str::trim` and `str::split_whitespace` are defined by.
 *
 * A few facts about sequences of groups sit here too, for the chunkers and the table
 * detector alike.
 *
 * The functions carry only the facts their own termination needs; everything else about them
 * is a lemma, called where it is used.
 */
module Text {

  /** Number of bytes the UTF-8 encoding of `c` takes. */
  function CharByteLen(c: char): (n: nat)
    ensures 1 <= n <= 4
    ensures n == 1 <==> c as int < 0x80
  {
    if c as int < 0x80 then 1
    else if c as int < 0x800 then 2
    else if c as int < 0x1_0000 then 3
    else 4
  }

  /** `str::len`: the length of the UTF-8 encoding of `s`, in bytes. */
  function ByteLen(s: string): nat
  {
    if s == [] then 0 else CharByteLen(s[0]) + ByteLen(s[1..])
  }

  lemma {:induction false} ByteLenAppend(a: string, b: string)
    ensures ByteLen(a + b) == ByteLen(a) + ByteLen(b)
  {
    if a == [] {
      assert a + b == b;
    } else {
      assert (a + b)[1..] == a[1..] + b;
      ByteLenAppend(a[1..], b);
    }
  }

  /** Every character takes at least one byte and at most four. */
  lemma {:induction false} ByteLenBounds(s: string)
    ensures |s| <= ByteLen(s) <= 4 * |s|
  {
    if s != [] {
      ByteLenBounds(s[1..]);
    }
  }

  lemma ByteLenSplitAt(s: string, k: nat)
    requires k <= |s|
    ensures ByteLen(s) == ByteLen(s[..k]) + ByteLen(s[k..])
  {
    assert s == s[..k] + s[k..];
    ByteLenAppend(s[..k], s[k..]);
  }

  /** The Unicode White_Space code points. */
  predicate IsWhitespace(c: char)
  {
    ('\t' <= c <= '\r') || c == ' ' || c == '\U{0085}' || c == '\U{00A0}' || c == '\U{1680}'
    || ('\U{2000}' <= c <= '\U{200A}') || c == '\U{2028}' || c == '\U{2029}' || c == '\U{202F}'
    || c == '\U{205F}' || c == '\U{3000}'
  }

  lemma SpaceIsWhitespace()
    ensures IsWhitespace(' ')
  {
  }

  /** No printable ASCII character is whitespace. */
  lemma GraphicNotWhitespace(c: char)
    requires '!' <= c <= '~'
    ensures !IsWhitespace(c)
  {
  }

  /** Empty or whitespace only. */
  predicate IsBlank(s: string)
  {
    forall i | 0 <= i < |s| :: IsWhitespace(s[i])
  }

  /** What `split_whitespace` yields: a non-empty run of non-whitespace characters. */
  predicate IsWord(w: string)
  {
    w != [] && forall i | 0 <= i < |w| :: !IsWhitespace(w[i])
  }

  predicate AreWords(ws: seq<string>)
  {
    forall i | 0 <= i < |ws| :: IsWord(ws[i])
  }

  lemma BlankAppend(a: string, b: string)
    requires IsBlank(a) && IsBlank(b)
    ensures IsBlank(a + b)
  {
    assert forall i | 0 <= i < |a + b| :: (a + b)[i] == if i < |a| then a[i] else b[i - |a|];
  }

  lemma ConcatAssoc<T>(a: seq<T>, b: seq<T>, c: seq<T>)
    ensures a + (b + c) == (a + b) + c
  {
  }

  /** The groups concatenated in order. */
  function Flatten<T>(gs: seq<seq<T>>): seq<T>
  {
    if gs == [] then [] else gs[0] + Flatten(gs[1..])
  }

  /** Every member of every group is in the flattened sequence. */
  lemma {:induction false} FlattenHas<T>(gs: seq<seq<T>>, i: nat, j: nat)
    requires i < |gs| && j < |gs[i]|
    ensures gs[i][j] in Flatten(gs)
  {
    if i == 0 {
      assert gs[0][j] in gs[0];
    } else {
      FlattenHas(gs[1..], i - 1, j);
    }
  }

  /** Flattening distributes over concatenation of the group sequences. */
  lemma {:induction false} FlattenAppend<T>(a: seq<seq<T>>, b: seq<seq<T>>)
    ensures Flatten(a + b) == Flatten(a) + Flatten(b)
  {
    if a == [] {
      assert a + b == b;
    } else {
      assert (a + b)[1..] == a[1..] + b;
      FlattenAppend(a[1..], b);
    }
  }

  /** A prefix one element longer is the prefix plus that element. */
  lemma TakeOneMore<T>(s: seq<T>, i: nat)
    requires i < |s|
    ensures s[..i + 1] == s[..i] + [s[i]]
  {
  }

  // ---------------------------------------------------------------------------------------
  // trim_start, trim_end, trim

  /** `str::trim_start`: drops the leading whitespace. */
  function TrimStart(s: string): (r: string)
    ensures |r| <= |s|
    ensures r != [] ==> !IsWhitespace(r[0])
  {
    if s != [] && IsWhitespace(s[0]) then TrimStart(s[1..]) else s
  }

  /** `trim_start` removes a whitespace-only prefix and keeps the rest. */
  lemma {:induction false} TrimStartSpec(s: string)
    ensures var r := TrimStart(s); r == s[|s| - |r|..] && IsBlank(s[..|s| - |r|])
  {
    if s != [] && IsWhitespace(s[0]) {
      TrimStartSpec(s[1..]);
      var r := TrimStart(s[1..]);
      assert s[1..][|s| - 1 - |r|..] == s[|s| - |r|..];
      assert s[..|s| - |r|] == [s[0]] + s[1..][..|s| - 1 - |r|];
    } else {
      assert s[..0] == [];
    }
  }

  /** `str::trim_end`: drops the trailing whitespace. */
  function TrimEnd(s: string): (r: string)
    ensures |r| <= |s|
    ensures r != [] ==> !IsWhitespace(r[|r| - 1])
  {
    if s != [] && IsWhitespace(s[|s| - 1]) then TrimEnd(s[..|s| - 1]) else s
  }

  /** `trim_end` removes a whitespace-only suffix and keeps the rest. */
  lemma {:induction false} TrimEndSpec(s: string)
    ensures var r := TrimEnd(s); r == s[..|r|] && IsBlank(s[|r|..])
  {
    if s != [] && IsWhitespace(s[|s| - 1]) {
      TrimEndSpec(s[..|s| - 1]);
      var r := TrimEnd(s[..|s| - 1]);
      assert s[..|s| - 1][..|r|] == s[..|r|];
      assert s[|r|..] == s[..|s| - 1][|r|..] + [s[|s| - 1]];
    } else {
      assert s[|s|..] == [];
    }
  }

  lemma TrimEndEmptyIffBlank(t: string)
    ensures TrimEnd(t) == [] <==> IsBlank(t)
  {
    var r := TrimEnd(t);
    TrimEndSpec(t);
    assert r == [] ==> t[|r|..] == t;
    assert r != [] ==> t[|r| - 1] == r[|r| - 1];
  }

  lemma TrimStartKeepsBlankness(s: string)
    ensures IsBlank(TrimStart(s)) <==> IsBlank(s)
  {
    var t := TrimStart(s);
    TrimStartSpec(s);
    var p := s[..|s| - |t|];
    assert s == p + t;
    assert IsBlank(t) ==> IsBlank(s) by {
      if IsBlank(t) {
        BlankAppend(p, t);
      }
    }
    assert forall i | 0 <= i < |t| :: t[i] == s[|p| + i];
  }

  /** `str::trim`. Trimming gives the empty string exactly when the text is blank. */
  function Trim(s: string): (r: string)
    ensures r == [] <==> IsBlank(s)
    ensures r != [] ==> !IsWhitespace(r[0]) && !IsWhitespace(r[|r| - 1])
  {
    var t := TrimStart(s);
    TrimEndEmptyIffBlank(t);
    TrimStartKeepsBlankness(s);
    var r := TrimEnd(t);
    assert r != [] ==> r[0] == t[0] by {
      TrimEndSpec(t);
    }
    r
  }

  /** `trim` removes a whitespace-only prefix and suffix and keeps the rest unchanged. */
  lemma TrimIsInfix(s: string)
    ensures var i := |s| - |TrimStart(s)|;
            i + |Trim(s)| <= |s| && Trim(s) == s[i..i + |Trim(s)|]
            && IsBlank(s[..i]) && IsBlank(s[i + |Trim(s)|..])
  {
    var t := TrimStart(s);
    var r := TrimEnd(t);
    TrimStartSpec(s);
    TrimEndSpec(t);
    SliceOfSuffix(s, t, r);
  }

  /** A prefix of a suffix of `s` is a slice of `s`, and what follows it is the rest of `s`. */
  lemma SliceOfSuffix<T>(s: seq<T>, t: seq<T>, r: seq<T>)
    requires |t| <= |s| && t == s[|s| - |t|..]
    requires |r| <= |t| && r == t[..|r|]
    ensures var i := |s| - |t|; r == s[i..i + |r|] && s[i + |r|..] == t[|r|..]
  {
  }

  /** A string that does not start or end with whitespace is its own trim. */
  lemma TrimOfTrimmed(s: string)
    requires s != [] ==> !IsWhitespace(s[0]) && !IsWhitespace(s[|s| - 1])
    ensures Trim(s) == s
  {
  }

  lemma {:induction false} TrimStartOfBlankPrefix(a: string, x: string)
    requires IsBlank(a)
    ensures TrimStart(a + x) == TrimStart(x)
  {
    if a != [] {
      assert (a + x)[0] == a[0];
      assert (a + x)[1..] == a[1..] + x;
      TrimStartOfBlankPrefix(a[1..], x);
    } else {
      assert a + x == x;
    }
  }

  lemma {:induction false} TrimStartOfNonBlankPrefix(a: string, x: string)
    requires !IsBlank(a)
    ensures TrimStart(a + x) == TrimStart(a) + x
  {
    assert a != [];
    assert (a + x)[0] == a[0];
    if IsWhitespace(a[0]) {
      assert (a + x)[1..] == a[1..] + x;
      assert !IsBlank(a[1..]) by {
        var i :| 0 <= i < |a| && !IsWhitespace(a[i]);
        assert a[1..][i - 1] == a[i];
      }
      TrimStartOfNonBlankPrefix(a[1..], x);
    }
  }

  lemma ByteLenOfTrimStart(s: string)
    ensures ByteLen(TrimStart(s)) <= ByteLen(s)
  {
    var t := TrimStart(s);
    TrimStartSpec(s);
    ByteLenSplitAt(s, |s| - |t|);
  }

  // ---------------------------------------------------------------------------------------
  // split_whitespace

  /** Length of the leading run of non-whitespace characters. */
  function WordLen(s: string): (k: nat)
    ensures k <= |s|
    ensures s != [] && !IsWhitespace(s[0]) ==> 0 < k
  {
    if s == [] || IsWhitespace(s[0]) then 0 else 1 + WordLen(s[1..])
  }

  /** The leading run is non-whitespace and is followed by whitespace or the end. */
  lemma {:induction false} WordLenSpec(s: string)
    ensures var k := WordLen(s);
      (forall i | 0 <= i < k :: !IsWhitespace(s[i])) && (k < |s| ==> IsWhitespace(s[k]))
  {
    if s != [] && !IsWhitespace(s[0]) {
      WordLenSpec(s[1..]);
      var k := WordLen(s);
      assert forall i | 1 <= i < k :: s[i] == s[1..][i - 1];
      assert k < |s| ==> s[k] == s[1..][k - 1];
    }
  }

  lemma {:induction false} WordLenAppend(t: string, x: string)
    requires x == [] || IsWhitespace(x[0])
    ensures WordLen(t + x) == WordLen(t)
  {
    if t == [] {
      assert t + x == x;
    } else {
      assert (t + x)[0] == t[0];
      assert (t + x)[1..] == t[1..] + x;
      WordLenAppend(t[1..], x);
    }
  }

  lemma {:induction false} WordLenOfWord(w: string)
    requires IsWord(w)
    ensures WordLen(w) == |w|
  {
    if |w| > 1 {
      assert IsWord(w[1..]) by {
        assert forall i | 0 <= i < |w| - 1 :: w[1..][i] == w[i + 1];
      }
      WordLenOfWord(w[1..]);
    } else {
      assert w[1..] == [];
    }
  }

  /** `str::split_whitespace`: the maximal runs of non-whitespace characters, in order. */
  function Words(s: string): seq<string>
    decreases |s|
  {
    var t := TrimStart(s);
    if t == [] then []
    else
      var k := WordLen(t);
      [t[..k]] + Words(t[k..])
  }

  /** A string that starts with a non-whitespace character splits off its leading run. */
  lemma WordsUnfold(t: string)
    requires t != [] && !IsWhitespace(t[0])
    ensures Words(t) == [t[..WordLen(t)]] + Words(t[WordLen(t)..])
  {
  }

  /** Leading whitespace does not change the words. */
  lemma WordsOfTrimStart(s: string)
    ensures Words(TrimStart(s)) == Words(s)
  {
    var t := TrimStart(s);
    assert TrimStart(t) == t;
  }

  /** Every piece `split_whitespace` yields is a word. */
  lemma {:induction false} WordsAreWords(s: string)
    ensures AreWords(Words(s))
    decreases |s|
  {
    var t := TrimStart(s);
    if t != [] {
      var k := WordLen(t);
      WordsAreWords(t[k..]);
      WordLenSpec(t);
      assert IsWord(t[..k]);
    }
  }

  /** No words exactly when the text is blank (so `trim().is_empty()` agrees with it). */
  lemma WordsEmptyIffBlank(s: string)
    ensures Words(s) == [] <==> IsBlank(s)
  {
    TrimStartKeepsBlankness(s);
    var t := TrimStart(s);
    assert t != [] ==> !IsBlank(t);
  }

  /** Leading whitespace does not change the words. */
  lemma WordsAfterSpace(c: char, s: string)
    requires IsWhitespace(c)
    ensures Words([c] + s) == Words(s)
  {
    assert ([c] + s)[1..] == s;
    assert TrimStart([c] + s) == TrimStart(s);
    WordsOfTrimStart([c] + s);
    WordsOfTrimStart(s);
  }

  /** Splitting at a whitespace boundary: the words of `a + x` are those of `a`, then those of `x`. */
  lemma {:induction false} WordsAppendAtSpace(a: string, x: string)
    requires x == [] || IsWhitespace(x[0])
    ensures Words(a + x) == Words(a) + Words(x)
    decreases |a|, 1
  {
    WordsOfTrimStart(a + x);
    WordsOfTrimStart(a);
    WordsEmptyIffBlank(a);
    if IsBlank(a) {
      TrimStartOfBlankPrefix(a, x);
      WordsOfTrimStart(x);
    } else {
      TrimStartOfNonBlankPrefix(a, x);
      WordsAppendAfterWord(TrimStart(a), x);
    }
  }

  lemma {:induction false} WordsAppendAfterWord(t: string, x: string)
    requires t != [] && !IsWhitespace(t[0])
    requires x == [] || IsWhitespace(x[0])
    ensures Words(t + x) == Words(t) + Words(x)
    decreases |t|, 0
  {
    var k := WordLen(t);
    var w, r := t[..k], t[k..];
    WordLenAppend(t, x);
    assert (t + x)[0] == t[0];
    WordsUnfold(t + x);
    assert (t + x)[..k] == w;
    assert (t + x)[k..] == r + x;
    WordsUnfold(t);
    WordsAppendAtSpace(r, x);
    ConcatAssoc([w], Words(r), Words(x));
  }

  /** The words of two texts joined by a space are the words of the first, then of the second. */
  lemma WordsOfSpaced(a: string, b: string)
    ensures Words(a + " " + b) == Words(a) + Words(b)
  {
    SpaceIsWhitespace();
    assert a + " " + b == a + ([' '] + b);
    WordsAppendAtSpace(a, [' '] + b);
    WordsAfterSpace(' ', b);
  }

  /** A word is one word. */
  lemma WordsOfWord(w: string)
    requires IsWord(w)
    ensures Words(w) == [w]
  {
    WordLenOfWord(w);
    WordsUnfold(w);
    assert w[..|w|] == w && w[|w|..] == [];
  }

  // ---------------------------------------------------------------------------------------
  // Joining with single spaces

  /** Joins strings with a single space, as `format!("{} {}", a, b)` does pairwise. */
  function Join(ws: seq<string>): string
  {
    if ws == [] then []
    else if |ws| == 1 then ws[0]
    else ws[0] + " " + Join(ws[1..])
  }

  lemma {:induction false} JoinAppend(a: seq<string>, b: seq<string>)
    requires a != [] && b != []
    ensures Join(a + b) == Join(a) + " " + Join(b)
  {
    if |a| == 1 {
      assert (a + b)[1..] == b;
    } else {
      assert (a + b)[1..] == a[1..] + b;
      JoinAppend(a[1..], b);
    }
  }

  /** Joining words gives a string whose first character is the first word's. */
  lemma {:induction false} JoinStartsWithFirst(ws: seq<string>)
    requires ws != [] && ws[0] != []
    ensures Join(ws) != [] && Join(ws)[0] == ws[0][0]
  {
  }

  /** A non-empty sequence of words joins to a non-blank string. */
  lemma JoinOfWordsNotBlank(ws: seq<string>)
    requires ws != [] && AreWords(ws)
    ensures !IsBlank(Join(ws))
  {
    JoinStartsWithFirst(ws);
  }

  /** Round trip: splitting words joined by single spaces gives the words back. */
  lemma {:induction false} WordsOfJoin(ws: seq<string>)
    requires AreWords(ws)
    ensures Words(Join(ws)) == ws
  {
    if |ws| == 1 {
      WordsOfWord(ws[0]);
    } else if |ws| > 1 {
      assert AreWords(ws[1..]);
      WordsOfJoin(ws[1..]);
      WordsOfSpaced(ws[0], Join(ws[1..]));
      WordsOfWord(ws[0]);
      assert ws == [ws[0]] + ws[1..];
    }
  }

  /** Byte length of words joined by single spaces. */
  function JoinedByteLen(ws: seq<string>): nat
  {
    if ws == [] then 0
    else if |ws| == 1 then ByteLen(ws[0])
    else ByteLen(ws[0]) + 1 + JoinedByteLen(ws[1..])
  }

  lemma {:induction false} ByteLenOfJoin(ws: seq<string>)
    ensures ByteLen(Join(ws)) == JoinedByteLen(ws)
  {
    if |ws| > 1 {
      ByteLenOfJoin(ws[1..]);
      assert ws[0] + " " + Join(ws[1..]) == ws[0] + (" " + Join(ws[1..]));
      ByteLenAppend(ws[0], " " + Join(ws[1..]));
      ByteLenAppend(" ", Join(ws[1..]));
      assert " "[1..] == [];
    }
  }

  lemma JoinConsByteLen(w: string, ws: seq<string>)
    requires ws != []
    ensures ByteLen(Join([w] + ws)) == ByteLen(w) + 1 + ByteLen(Join(ws))
  {
    assert ([w] + ws)[1..] == ws;
    ByteLenOfJoin([w] + ws);
    ByteLenOfJoin(ws);
  }

  /** One step of `JoinedWordsNoLonger`: a word, then whitespace and the rest. */
  lemma JoinedWordsStep(w: string, rest: string)
    requires rest != [] ==> IsWhitespace(rest[0])
    requires rest != [] ==> ByteLen(Join(Words(rest[1..]))) <= ByteLen(rest[1..])
    ensures ByteLen(Join([w] + Words(rest))) <= ByteLen(w) + ByteLen(rest)
  {
    var ws := Words(rest);
    if ws == [] {
      assert [w] + ws == [w];
    } else {
      assert rest != [];
      assert rest == [rest[0]] + rest[1..];
      WordsAfterSpace(rest[0], rest[1..]);
      JoinConsByteLen(w, ws);
    }
  }

  /**
   * Re-joining the words of a string with single spaces never makes it longer: every run of
   * whitespace between two words is at least one byte and becomes exactly one.
   */
  lemma {:induction false} JoinedWordsNoLonger(s: string)
    ensures ByteLen(Join(Words(s))) <= ByteLen(s)
    decreases |s|
  {
    var t := TrimStart(s);
    ByteLenOfTrimStart(s);
    WordsOfTrimStart(s);
    if t != [] {
      var k := WordLen(t);
      ByteLenSplitAt(t, k);
      WordsUnfold(t);
      WordLenSpec(t);
      if t[k..] != [] {
        JoinedWordsNoLonger(t[k..][1..]);
      }
      JoinedWordsStep(t[..k], t[k..]);
    }
  }

  // ---------------------------------------------------------------------------------------
  // split, lines

  /** `str::split(sep)`: the pieces between separators; always at least one piece. */
  function SplitOn(s: string, sep: char): (parts: seq<string>)
    ensures |parts| >= 1
    ensures forall i | 0 <= i < |parts| :: sep !in parts[i]
  {
    if s == [] then [[]]
    else
      var rest := SplitOn(s[1..], sep);
      if s[0] == sep then [[]] + rest
      else [[s[0]] + rest[0]] + rest[1..]
  }

  function JoinOn(parts: seq<string>, sep: char): string
  {
    if parts == [] then []
    else if |parts| == 1 then parts[0]
    else parts[0] + [sep] + JoinOn(parts[1..], sep)
  }

  /** Round trip: splitting on a separator and joining with it gives the string back. */
  lemma {:induction false} JoinOnSplitOn(s: string, sep: char)
    ensures JoinOn(SplitOn(s, sep), sep) == s
  {
    if s != [] {
      var rest := SplitOn(s[1..], sep);
      JoinOnSplitOn(s[1..], sep);
      if s[0] == sep {
        assert ([[]] + rest)[1..] == rest;
      } else {
        var parts := [[s[0]] + rest[0]] + rest[1..];
        if |rest| == 1 {
          assert parts == [[s[0]] + rest[0]];
        } else {
          assert parts[1..] == rest[1..];
          assert JoinOn(rest, sep) == rest[0] + [sep] + JoinOn(rest[1..], sep);
        }
      }
    }
  }

  /** A piece without the separator followed by the separator is split off whole. */
  lemma {:induction false} SplitOnPiece(piece: string, sep: char, rest: string)
    requires sep !in piece
    ensures SplitOn(piece + [sep] + rest, sep) == [piece] + SplitOn(rest, sep)
  {
    if piece == [] {
      assert ([] + [sep] + rest)[1..] == rest;
    } else {
      var s := piece + [sep] + rest;
      assert s[1..] == piece[1..] + [sep] + rest;
      SplitOnPiece(piece[1..], sep, rest);
      assert piece == [piece[0]] + piece[1..];
    }
  }

  /** Drops one trailing carriage return, if any. */
  function StripCR(line: string): (r: string)
    ensures r == line || (line == r + ['\r'])
  {
    if line != [] && line[|line| - 1] == '\r' then line[..|line| - 1] else line
  }

  /**
   * `str::lines`: the pieces between '\n' characters. The piece after the last '\n' is
   * dropped when empty, and every piece that a '\n' ends loses one trailing '\r'.
   */
  function Lines(s: string): (ls: seq<string>)
    ensures forall i | 0 <= i < |ls| :: '\n' !in ls[i]
  {
    var parts := SplitOn(s, '\n');
    var n := |parts|;
    var ended := seq(n - 1, i requires 0 <= i < n - 1 => StripCR(parts[i]));
    assert forall i | 0 <= i < n - 1 :: '\n' !in ended[i] by {
      forall i | 0 <= i < n - 1 ensures '\n' !in ended[i] {
        assert '\n' !in parts[i];
      }
    }
    ended + (if parts[n - 1] == [] then [] else [parts[n - 1]])
  }
}
