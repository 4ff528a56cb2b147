/** Character classes and string helpers shared by the tokenizer and the
    chunker: the ECMAScript whitespace set (used by `\s` and `trim`), ASCII
    case folding, UTF-16 length, `split('\n')`/`join('\n')`, whitespace
    pieces (`split(/\s+/)`) and decimal numerals. */
module Text {
  import opened Seqs

  // ---------------------------------------------------------------------
  // Character classes
  // ---------------------------------------------------------------------

  /** ECMAScript WhiteSpace and LineTerminator code points: the set matched
      by `\s` and removed by `String.prototype.trim`. */
  predicate IsSpace(c: char) {
    var n := c as int;
    || n == 0x09 || n == 0x0A || n == 0x0B || n == 0x0C || n == 0x0D
    || n == 0x20 || n == 0xA0 || n == 0x1680
    || (0x2000 <= n <= 0x200A)
    || n == 0x2028 || n == 0x2029 || n == 0x202F || n == 0x205F
    || n == 0x3000 || n == 0xFEFF
  }

  /** The code points a regular-expression `.` refuses to match. */
  predicate IsLineTerminator(c: char) {
    var n := c as int;
    n == 0x0A || n == 0x0D || n == 0x2028 || n == 0x2029
  }

  lemma LineTerminatorIsSpace(c: char)
    ensures IsLineTerminator(c) ==> IsSpace(c)
  {
  }

  predicate IsDigit(c: char) {
    '0' <= c <= '9'
  }

  predicate IsAsciiLetter(c: char) {
    ('a' <= c <= 'z') || ('A' <= c <= 'Z')
  }

  /** The class `\w` of a regular expression without the `u` flag. */
  predicate IsWordChar(c: char) {
    IsAsciiLetter(c) || IsDigit(c) || c == '_'
  }

  /** CJK Unified Ideographs, U+4E00..U+9FFF. */
  predicate IsCJK(c: char) {
    0x4E00 <= c as int <= 0x9FFF
  }

  predicate AllSpace(s: string) {
    forall i | 0 <= i < |s| :: IsSpace(s[i])
  }

  predicate NoSpace(s: string) {
    forall i | 0 <= i < |s| :: !IsSpace(s[i])
  }

  predicate NoLineTerminator(s: string) {
    forall i | 0 <= i < |s| :: !IsLineTerminator(s[i])
  }

  /** ASCII case folding: the part of `toLowerCase` this model keeps. */
  function ToLower(c: char): (r: char)
    ensures IsAsciiLetter(c) ==> 'a' <= r <= 'z'
    ensures !('A' <= c <= 'Z') ==> r == c
  {
    if 'A' <= c <= 'Z' then (c as int + 32) as char else c
  }

  // ---------------------------------------------------------------------
  // Length as JavaScript counts it
  // ---------------------------------------------------------------------

  /** `s.length`: the number of UTF-16 code units, so a supplementary-plane
      character counts twice. */
  function Utf16Length(s: string): (n: nat)
    ensures |s| <= n <= 2 * |s|
  {
    if s == [] then 0
    else (if s[0] as int >= 0x10000 then 2 else 1) + Utf16Length(s[1..])
  }

  // ---------------------------------------------------------------------
  // trim
  // ---------------------------------------------------------------------

  /** The string has no whitespace at either end. */
  predicate IsTrimmed(s: string) {
    s == [] || (!IsSpace(s[0]) && !IsSpace(s[|s| - 1]))
  }

  function TrimStart(s: string): (r: string)
    ensures |r| <= |s| && r == s[|s| - |r|..]
    ensures AllSpace(s[..|s| - |r|])
    ensures r == [] || !IsSpace(r[0])
    decreases |s|
  {
    if s != [] && IsSpace(s[0]) then TrimStart(s[1..]) else s
  }

  function TrimEnd(s: string): (r: string)
    ensures |r| <= |s| && r == s[..|r|]
    ensures AllSpace(s[|r|..])
    ensures r == [] || !IsSpace(r[|r| - 1])
    decreases |s|
  {
    if s != [] && IsSpace(s[|s| - 1]) then
      var r := TrimEnd(s[..|s| - 1]);
      assert s[|r|..] == s[..|s| - 1][|r|..] + [s[|s| - 1]];
      r
    else s
  }

  /** `String.prototype.trim`. */
  function Trim(s: string): string {
    TrimEnd(TrimStart(s))
  }

  lemma TrimEndKeepsStart(s: string)
    requires s == [] || !IsSpace(s[0])
    ensures var r := TrimEnd(s); r == [] || !IsSpace(r[0])
  {
  }

  /** `trim` leaves no whitespace at either end. */
  lemma TrimIsTrimmed(s: string)
    ensures IsTrimmed(Trim(s))
  {
    TrimEndKeepsStart(TrimStart(s));
  }

  /** `trim` yields the empty string exactly for all-whitespace input. */
  lemma TrimEmptyIffBlank(s: string)
    ensures Trim(s) == [] <==> AllSpace(s)
  {
    var t := TrimStart(s);
    var a := |s| - |t|;
    if Trim(s) == [] {
      assert t[|Trim(s)|..] == t;
      assert s[..a] == s;
    } else {
      TrimEndKeepsStart(t);
      assert Trim(s)[0] == t[0] == s[a];
    }
  }

  /** `s` is `r`, placed at offset `a`, with only whitespace around it. */
  predicate SpaceAround(r: string, s: string, a: int) {
    && 0 <= a && a + |r| <= |s|
    && s[a..a + |r|] == r
    && AllSpace(s[..a]) && AllSpace(s[a + |r|..])
  }

  /** `trim` keeps one contiguous slice of its input and drops only
      whitespace around it. */
  lemma TrimSlice(s: string)
    ensures SpaceAround(Trim(s), s, |s| - |TrimStart(s)|)
  {
    var t := TrimStart(s);
    MiddleSlice(s, t, TrimEnd(t));
  }

  /** A prefix `r` of a suffix `t` of `s` is a slice of `s`, and the
      whitespace around each cut is whitespace of `s`. */
  lemma MiddleSlice(s: string, t: string, r: string)
    requires |t| <= |s| && t == s[|s| - |t|..] && AllSpace(s[..|s| - |t|])
    requires |r| <= |t| && r == t[..|r|] && AllSpace(t[|r|..])
    ensures SpaceAround(r, s, |s| - |t|)
  {
    var a := |s| - |t|;
    assert t[|r|..] == s[a + |r|..];
  }

  /** A trimmed string is its own trim. */
  lemma TrimOfTrimmed(s: string)
    requires IsTrimmed(s)
    ensures Trim(s) == s
  {
  }

  lemma TrimIdempotent(s: string)
    ensures Trim(Trim(s)) == Trim(s)
  {
    TrimIsTrimmed(s);
    TrimOfTrimmed(Trim(s));
  }

  /** Trimming the front of `x + y` only touches `x` when `x` holds a
      non-whitespace character. */
  lemma {:induction false} TrimStartAppend(x: string, y: string)
    requires !AllSpace(x)
    ensures TrimStart(x + y) == TrimStart(x) + y
    decreases |x|
  {
    if IsSpace(x[0]) {
      assert (x + y)[1..] == x[1..] + y;
      assert !AllSpace(x[1..]) by {
        var i :| 0 <= i < |x| && !IsSpace(x[i]);
        assert x[1..][i - 1] == x[i];
      }
      TrimStartAppend(x[1..], y);
    }
  }

  /** Trimming the end of `x + y` only touches `y` when `y` holds a
      non-whitespace character. */
  lemma {:induction false} TrimEndAppend(x: string, y: string)
    requires !AllSpace(y)
    ensures TrimEnd(x + y) == x + TrimEnd(y)
    decreases |y|
  {
    if IsSpace(y[|y| - 1]) {
      assert (x + y)[..|x + y| - 1] == x + y[..|y| - 1];
      assert !AllSpace(y[..|y| - 1]) by {
        var i :| 0 <= i < |y| && !IsSpace(y[i]);
        assert y[..|y| - 1][i] == y[i];
      }
      TrimEndAppend(x, y[..|y| - 1]);
    }
  }

  lemma TrimStartNotBlank(s: string)
    requires !AllSpace(s)
    ensures !AllSpace(TrimStart(s))
  {
    var i :| 0 <= i < |s| && !IsSpace(s[i]);
    var r := TrimStart(s);
    assert i >= |s| - |r|;
    assert r[i - (|s| - |r|)] == s[i];
  }

  lemma TrimEndNotBlank(s: string)
    requires !AllSpace(s)
    ensures !AllSpace(TrimEnd(s))
  {
    var i :| 0 <= i < |s| && !IsSpace(s[i]);
    var r := TrimEnd(s);
    assert i < |r|;
    assert r[i] == s[i];
  }

  // ---------------------------------------------------------------------
  // includes
  // ---------------------------------------------------------------------

  /** `s.includes(sub)`. */
  predicate Contains(s: string, sub: string)
    decreases |s|
  {
    sub <= s || (s != [] && Contains(s[1..], sub))
  }

  // ---------------------------------------------------------------------
  // split('\n') and join('\n')
  // ---------------------------------------------------------------------

  predicate NoNewline(s: string) {
    '\n' !in s
  }

  /** `s.split('\n')`: never empty; the empty string gives one empty line. */
  function SplitLines(s: string): (lines: seq<string>)
    ensures |lines| >= 1
    ensures forall i | 0 <= i < |lines| :: NoNewline(lines[i])
    decreases |s|
  {
    if s == [] then [[]]
    else
      var rest := SplitLines(s[1..]);
      if s[0] == '\n' then [[]] + rest
      else [[s[0]] + rest[0]] + rest[1..]
  }

  /** `lines.join('\n')`. */
  function Join(lines: seq<string>): string
    decreases |lines|
  {
    if lines == [] then []
    else if |lines| == 1 then lines[0]
    else lines[0] + "\n" + Join(lines[1..])
  }

  /** Joining the pieces of a split restores the text. */
  lemma {:induction false} JoinSplitLines(s: string)
    ensures Join(SplitLines(s)) == s
    decreases |s|
  {
    if s != [] {
      var rest := SplitLines(s[1..]);
      JoinSplitLines(s[1..]);
      if s[0] == '\n' {
        assert s == "\n" + s[1..];
      } else if |rest| == 1 {
        assert s == [s[0]] + s[1..];
      } else {
        assert Join(rest) == rest[0] + "\n" + Join(rest[1..]);
        assert [[s[0]] + rest[0]] + rest[1..] == [[s[0]] + rest[0]] + rest[1..];
        var r := [[s[0]] + rest[0]] + rest[1..];
        assert r[1..] == rest[1..];
        assert s == [s[0]] + s[1..];
      }
    }
  }

  /** Splitting a join of newline-free lines gives the lines back. */
  lemma {:induction false} SplitJoinLines(lines: seq<string>)
    requires |lines| >= 1
    requires forall i | 0 <= i < |lines| :: NoNewline(lines[i])
    ensures SplitLines(Join(lines)) == lines
    decreases |lines|
  {
    if |lines| == 1 {
      SplitNoNewline(lines[0]);
    } else {
      SplitJoinLines(lines[1..]);
      SplitPrefix(lines[0], Join(lines[1..]));
      assert lines == [lines[0]] + lines[1..];
    }
  }

  lemma {:induction false} SplitNoNewline(s: string)
    requires NoNewline(s)
    ensures SplitLines(s) == [s]
    decreases |s|
  {
    if s != [] {
      assert NoNewline(s[1..]) by { assert forall c | c in s[1..] :: c in s; }
      SplitNoNewline(s[1..]);
      assert s == [s[0]] + s[1..];
    }
  }

  lemma {:induction false} SplitPrefix(x: string, y: string)
    requires NoNewline(x)
    ensures SplitLines(x + "\n" + y) == [x] + SplitLines(y)
    decreases |x|
  {
    if x == [] {
      assert x + "\n" + y == "\n" + y;
      assert ("\n" + y)[1..] == y;
    } else {
      assert NoNewline(x[1..]) by { assert forall c | c in x[1..] :: c in x; }
      assert (x + "\n" + y)[1..] == x[1..] + "\n" + y;
      SplitPrefix(x[1..], y);
      assert x == [x[0]] + x[1..];
    }
  }

  /** No line of `s.split('\n')` is blank. */
  predicate NoBlankLine(s: string) {
    forall i | 0 <= i < |SplitLines(s)| :: !AllSpace(SplitLines(s)[i])
  }

  /** Joining a last line onto lines that may be none. */
  lemma JoinLast(lines: seq<string>, z: string)
    ensures Join(lines + [z]) == (if lines == [] then [] else Join(lines) + "\n") + z
  {
    if lines == [] {
      assert lines + [z] == [z];
    } else {
      JoinSnoc(lines, z);
    }
  }

  /** Trimming the front of a join of two or more lines only touches the
      first line when it holds non-whitespace. */
  lemma TrimStartJoin(lines: seq<string>)
    requires |lines| >= 2 && !AllSpace(lines[0])
    ensures TrimStart(Join(lines)) == TrimStart(lines[0]) + ("\n" + Join(lines[1..]))
  {
    assert Join(lines) == lines[0] + ("\n" + Join(lines[1..]));
    TrimStartAppend(lines[0], "\n" + Join(lines[1..]));
  }

  /** Trimming the end of `x` followed by a join only touches the last
      line when it holds non-whitespace. */
  lemma TrimEndJoin(x: string, lines: seq<string>)
    requires |lines| >= 1 && !AllSpace(lines[|lines| - 1])
    ensures TrimEnd(x + Join(lines)) == x + Join(lines[..|lines| - 1] + [TrimEnd(lines[|lines| - 1])])
  {
    var init, last := lines[..|lines| - 1], lines[|lines| - 1];
    var p: string := if init == [] then [] else Join(init) + "\n";
    assert lines == init + [last];
    JoinLast(init, last);
    JoinLast(init, TrimEnd(last));
    AppendAssoc(x, p, last);
    TrimEndAppend(x + p, last);
    AppendAssoc(x, p, TrimEnd(last));
  }

  /** Trimming a join of two or more lines, the outer two of which hold
      non-whitespace, trims only the start of the first line and the end of
      the last. */
  lemma TrimJoin(lines: seq<string>)
    requires |lines| >= 2
    requires !AllSpace(lines[0]) && !AllSpace(lines[|lines| - 1])
    ensures Trim(Join(lines))
      == Join([TrimStart(lines[0])] + lines[1..|lines| - 1] + [TrimEnd(lines[|lines| - 1])])
  {
    var n := |lines|;
    var a, mid, z := TrimStart(lines[0]), lines[1..n - 1], TrimEnd(lines[n - 1]);
    var rest := lines[1..];
    TrimStartJoin(lines);
    InnerLast(lines);
    TrimEndJoin(a + "\n", rest);
    AppendAssoc(a, "\n", Join(rest));
    Framed(a, mid, z);
    JoinCons([a] + mid + [z]);
  }

  lemma JoinCons(lines: seq<string>)
    requires |lines| >= 2
    ensures Join(lines) == lines[0] + "\n" + Join(lines[1..])
  {
  }

  /** One newline-free line that is not blank, trimmed, is still one such
      line. */
  lemma TrimOneLine(x: string)
    requires NoNewline(x) && !AllSpace(x)
    ensures NoNewline(Trim(x)) && !AllSpace(Trim(x))
  {
    TrimEndsKeepLine(x);
    TrimEndsKeepLine(TrimStart(x));
  }

  /** Trimming either end of a newline-free line that is not blank keeps
      it so. */
  lemma TrimEndsKeepLine(x: string)
    requires NoNewline(x) && !AllSpace(x)
    ensures NoNewline(TrimStart(x)) && !AllSpace(TrimStart(x))
    ensures NoNewline(TrimEnd(x)) && !AllSpace(TrimEnd(x))
  {
    TrimStartNotBlank(x);
    TrimEndNotBlank(x);
    NoNewlineSlices(x, |x| - |TrimStart(x)|, |TrimEnd(x)|);
  }

  lemma NoNewlineSlices(x: string, i: nat, j: nat)
    requires NoNewline(x) && i <= |x| && j <= |x|
    ensures NoNewline(x[i..]) && NoNewline(x[..j])
  {
    assert forall c | c in x[i..] :: c in x;
    assert forall c | c in x[..j] :: c in x;
  }

  /** Newline-free lines none of which is blank. */
  predicate ContentLines(lines: seq<string>) {
    forall i | 0 <= i < |lines| :: NoNewline(lines[i]) && !AllSpace(lines[i])
  }

  lemma FramedContentLines(a: string, mid: seq<string>, z: string)
    requires ContentLines([a]) && ContentLines(mid) && ContentLines([z])
    ensures ContentLines([a] + mid + [z])
  {
    var r := [a] + mid + [z];
    Framed(a, mid, z);
    forall i | 0 <= i < |r| ensures NoNewline(r[i]) && !AllSpace(r[i]) {
      if i == 0 {
        assert r[i] == [a][0];
      } else if i == |r| - 1 {
        assert r[i] == [z][0];
      } else {
        assert r[i] == mid[i - 1];
      }
    }
  }

  /** Joining content lines leaves no blank line. */
  lemma JoinNoBlankLine(lines: seq<string>)
    requires |lines| >= 1 && ContentLines(lines)
    ensures NoBlankLine(Join(lines))
  {
    SplitJoinLines(lines);
  }

  /** Content lines, joined and trimmed, leave a text with no blank line. */
  lemma TrimJoinNoBlankLine(lines: seq<string>)
    requires |lines| >= 1 && ContentLines(lines)
    ensures NoBlankLine(Trim(Join(lines)))
  {
    if |lines| == 1 {
      TrimOneLine(lines[0]);
      JoinNoBlankLine([Trim(lines[0])]);
    } else {
      TrimJoin(lines);
      TrimJoinFramed(lines);
      JoinNoBlankLine([TrimStart(lines[0])] + lines[1..|lines| - 1] + [TrimEnd(lines[|lines| - 1])]);
    }
  }

  /** Content lines with the first trimmed at the start and the last at
      the end are still content lines. */
  lemma TrimJoinFramed(lines: seq<string>)
    requires |lines| >= 2 && ContentLines(lines)
    ensures var n := |lines|;
      ContentLines([TrimStart(lines[0])] + lines[1..n - 1] + [TrimEnd(lines[n - 1])])
  {
    var n := |lines|;
    TrimEndsKeepLine(lines[0]);
    TrimEndsKeepLine(lines[n - 1]);
    ContentLine(TrimStart(lines[0]));
    ContentLine(TrimEnd(lines[n - 1]));
    ContentLinesSlice(lines, 1, n - 1);
    FramedContentLines(TrimStart(lines[0]), lines[1..n - 1], TrimEnd(lines[n - 1]));
  }

  lemma ContentLine(x: string)
    requires NoNewline(x) && !AllSpace(x)
    ensures ContentLines([x])
  {
  }

  lemma ContentLinesSlice(lines: seq<string>, i: nat, j: nat)
    requires ContentLines(lines) && i <= j <= |lines|
    ensures ContentLines(lines[i..j])
  {
    forall k | 0 <= k < j - i ensures NoNewline(lines[i..j][k]) && !AllSpace(lines[i..j][k]) {
      assert lines[i..j][k] == lines[i + k];
    }
  }

  /** Appending a last line to a join. */
  lemma {:induction false} JoinSnoc(lines: seq<string>, z: string)
    requires |lines| >= 1
    ensures Join(lines + [z]) == Join(lines) + "\n" + z
    decreases |lines|
  {
    if |lines| == 1 {
      assert lines + [z] == [lines[0], z];
    } else {
      assert (lines + [z])[1..] == lines[1..] + [z];
      JoinSnoc(lines[1..], z);
    }
  }

  // ---------------------------------------------------------------------
  // Whitespace pieces: split(/\s+/)
  // ---------------------------------------------------------------------

  /** `s[i..j]` is a maximal run of non-whitespace characters. */
  predicate IsPieceAt(s: string, i: int, j: int) {
    && 0 <= i < j <= |s|
    && NoSpace(s[i..j])
    && (i == 0 || IsSpace(s[i - 1]))
    && (j == |s| || IsSpace(s[j]))
  }

  /** `w` is one of the non-empty pieces that `s.split(/\s+/)` yields. */
  predicate IsPiece(w: string, s: string) {
    exists i, j | 0 <= i < j <= |s| :: IsPieceAt(s, i, j) && s[i..j] == w
  }

  /** The pieces of `s[start..]`, scanning from `i`, where `s[start..i]` is
      the piece under construction. */
  function PiecesFrom(s: string, start: nat, i: nat): seq<string>
    requires start <= i <= |s|
    decreases |s| - i
  {
    if i == |s| then (if start < i then [s[start..i]] else [])
    else if IsSpace(s[i]) then (if start < i then [s[start..i]] else []) + PiecesFrom(s, i + 1, i + 1)
    else PiecesFrom(s, start, i + 1)
  }

  /** The non-empty pieces of `s.split(/\s+/)`, in order. The empty pieces
      JavaScript yields for leading or trailing whitespace are left out:
      every caller discards them. */
  function Pieces(s: string): seq<string> {
    PiecesFrom(s, 0, 0)
  }

  predicate ScanInv(s: string, start: nat, i: nat) {
    && start <= i <= |s|
    && NoSpace(s[start..i])
    && (start == 0 || IsSpace(s[start - 1]))
  }

  lemma {:induction false} PiecesFromSound(s: string, start: nat, i: nat)
    requires ScanInv(s, start, i)
    ensures forall w | w in PiecesFrom(s, start, i) :: IsPiece(w, s)
    decreases |s| - i
  {
    if i == |s| {
      if start < i { assert IsPieceAt(s, start, i); }
    } else if IsSpace(s[i]) {
      if start < i { assert IsPieceAt(s, start, i); }
      PiecesFromSound(s, i + 1, i + 1);
    } else {
      NoSpaceExtend(s, start, i);
      PiecesFromSound(s, start, i + 1);
    }
  }

  /** A whitespace-free slice stays so when extended by a character that is
      not whitespace. */
  lemma NoSpaceExtend(s: string, start: nat, i: nat)
    requires start <= i < |s| && NoSpace(s[start..i]) && !IsSpace(s[i])
    ensures NoSpace(s[start..i + 1])
  {
    var t := s[start..i + 1];
    forall k | 0 <= k < |t| ensures !IsSpace(t[k]) {
      if k < i - start {
        assert t[k] == s[start..i][k];
      }
    }
  }

  /** A character inside a whitespace-free slice is not whitespace. */
  lemma SliceNoSpace(s: string, lo: int, hi: int, k: int)
    ensures 0 <= lo <= k < hi <= |s| && NoSpace(s[lo..hi]) ==> !IsSpace(s[k])
  {
    if 0 <= lo <= k < hi <= |s| {
      assert s[k] == s[lo..hi][k - lo];
    }
  }

  lemma {:induction false} PiecesFromComplete(s: string, start: nat, i: nat, a: int, b: int)
    requires ScanInv(s, start, i)
    requires IsPieceAt(s, a, b) && start <= a
    ensures s[a..b] in PiecesFrom(s, start, i)
    decreases |s| - i
  {
    SliceNoSpace(s, start, i, a - 1);
    SliceNoSpace(s, start, i, b);
    SliceNoSpace(s, a, b, i);
    if i < |s| && IsSpace(s[i]) {
      if a > i {
        PiecesFromComplete(s, i + 1, i + 1, a, b);
      }
    } else if i < |s| {
      NoSpaceExtend(s, start, i);
      PiecesFromComplete(s, start, i + 1, a, b);
    }
  }

  /** The pieces are exactly the maximal non-whitespace runs of `s`. */
  lemma PiecesSpec(s: string, w: string)
    ensures w in Pieces(s) <==> IsPiece(w, s)
  {
    assert ScanInv(s, 0, 0);
    PiecesFromSound(s, 0, 0);
    if IsPiece(w, s) {
      var a, b :| IsPieceAt(s, a, b) && s[a..b] == w;
      PiecesFromComplete(s, 0, 0, a, b);
    }
  }

  /** Every character of a piece is a character of the text that is not
      whitespace. */
  lemma PieceChars(w: string, s: string)
    requires IsPiece(w, s)
    ensures w != [] && NoSpace(w)
    ensures forall c | c in w :: c in s
  {
    var a, b :| 0 <= a < b <= |s| && IsPieceAt(s, a, b) && s[a..b] == w;
    forall c | c in w ensures c in s {
      var k :| 0 <= k < |w| && w[k] == c;
      assert w[k] == s[a..b][k] == s[a + k];
    }
  }

  // ---------------------------------------------------------------------
  // Decimal numerals
  // ---------------------------------------------------------------------

  function DigitChar(d: nat): (c: char)
    requires d < 10
    ensures IsDigit(c)
  {
    (('0' as int) + d) as char
  }

  function DigitValue(c: char): nat
    requires IsDigit(c)
  {
    (c as int) - ('0' as int)
  }

  /** Template-literal rendering `${n}` of a non-negative integer: decimal,
      no leading zeros. */
  function Decimal(n: nat): (r: string)
    ensures 1 <= |r|
    ensures forall i | 0 <= i < |r| :: IsDigit(r[i])
    ensures r[0] == '0' ==> n == 0
  {
    if n < 10 then [DigitChar(n)] else Decimal(n / 10) + [DigitChar(n % 10)]
  }

  /** The value of a string of decimal digits. */
  function DigitsValue(s: string): nat
    requires forall i | 0 <= i < |s| :: IsDigit(s[i])
    decreases |s|
  {
    if s == [] then 0 else 10 * DigitsValue(s[..|s| - 1]) + DigitValue(s[|s| - 1])
  }

  /** Reading a rendered numeral back gives the number. */
  lemma {:induction false} DecimalRoundTrip(n: nat)
    ensures DigitsValue(Decimal(n)) == n
  {
    if n >= 10 {
      var p := Decimal(n / 10);
      var r := Decimal(n);
      assert r[..|r| - 1] == p;
      DecimalRoundTrip(n / 10);
    }
  }

  /** Distinct numbers render to distinct numerals. */
  lemma DecimalInjective(m: nat, n: nat)
    requires Decimal(m) == Decimal(n)
    ensures m == n
  {
    DecimalRoundTrip(m);
    DecimalRoundTrip(n);
  }
}
