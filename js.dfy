/**
 * The JavaScript built-ins the core relies on, with their JavaScript
 * semantics: `Array.prototype.slice`, `String.prototype.substring`,
 * `split` on a one-character string and on the regular expression `/\s+/`,
 * `join`, `toLowerCase` and number-to-decimal-string conversion.
 */
module Js {

  function Min(a: int, b: int): int { if a <= b then a else b }

  function Max(a: int, b: int): int { if a >= b then a else b }

  /** `s.slice(start)`: a negative start counts back from the end, and both
      ends are clamped into the sequence. */
  function SliceFrom<T>(s: seq<T>, start: int): (r: seq<T>)
    ensures start < 0 ==> |r| == Min(-start, |s|)
    ensures |r| <= |s| && r == s[|s| - |r|..]
  {
    if start < 0 then s[Max(|s| + start, 0)..] else s[Min(start, |s|)..]
  }

  /** `s.slice(0, n)` and `s.substring(0, n)` for `n >= 0`. */
  function Take<T>(s: seq<T>, n: nat): (r: seq<T>)
    ensures |r| == Min(n, |s|)
    ensures r <= s
  {
    s[..Min(n, |s|)]
  }

  /** Number of occurrences of `c` in `s`. */
  function Count(s: string, c: char): nat
  {
    if s == [] then 0 else (if s[0] == c then 1 else 0) + Count(s[1..], c)
  }

  /** `s.indexOf(x)` for an `x` that occurs: the position of the first `x`;
      `|s|` when there is none. */
  function IndexOf<T(==)>(s: seq<T>, x: T): (i: nat)
    ensures i <= |s|
    ensures i < |s| ==> s[i] == x
    ensures x !in s[..i]
  {
    if s == [] then 0
    else if s[0] == x then 0
    else
      var j := IndexOf(s[1..], x);
      assert s[..j + 1] == [s[0]] + s[1..][..j];
      1 + j
  }

  /** `s.split(sep)` for a one-character separator: every separator splits,
      so two adjacent separators give an empty piece between them. The pieces
      are free of the separator and joined with it give `s` back, which fixes
      them. */
  function SplitOn(s: string, sep: char): (r: seq<string>)
    ensures |r| >= 1
    ensures forall i :: 0 <= i < |r| ==> sep !in r[i]
    ensures Join(r, sep) == s
    decreases |s|
  {
    var i := IndexOf(s, sep);
    if i == |s| then [s]
    else
      var rest := SplitOn(s[i + 1..], sep);
      JoinCons(s[..i], rest, sep);
      SplitAround(s, i);
      [s[..i]] + rest
  }

  /** `pieces.join(sep)`: separator-free pieces are written with exactly one
      separator between two consecutive ones. */
  function Join(pieces: seq<string>, sep: char): (r: string)
    ensures |pieces| >= 1 ==> pieces[0] <= r
    ensures (forall i :: 0 <= i < |pieces| ==> sep !in pieces[i]) ==> Count(r, sep) == Max(|pieces| - 1, 0)
  {
    if |pieces| == 0 then ""
    else
      CountAbsent(pieces[0], sep);
      if |pieces| == 1 then pieces[0]
      else
        var rest := Join(pieces[1..], sep);
        CountSeparated(pieces[0], sep, rest);
        pieces[0] + [sep] + rest
  }

  /** The characters matched by `\s` in a JavaScript regular expression. */
  predicate IsWhitespace(c: char)
  {
    var n := c as int;
    (0x09 <= n <= 0x0D) || n == 0x20 || n == 0xA0 || n == 0x1680
    || (0x2000 <= n <= 0x200A) || n == 0x2028 || n == 0x2029 || n == 0x202F
    || n == 0x205F || n == 0x3000 || n == 0xFEFF
  }

  predicate NoWhitespace(s: string)
  {
    forall i :: 0 <= i < |s| ==> !IsWhitespace(s[i])
  }

  /** Index of the first whitespace character of `s`, or `|s|`. */
  function WhitespaceIndex(s: string): (i: nat)
    ensures i <= |s|
    ensures i < |s| ==> IsWhitespace(s[i])
    ensures NoWhitespace(s[..i])
  {
    if s == [] then 0
    else if IsWhitespace(s[0]) then 0
    else 1 + WhitespaceIndex(s[1..])
  }

  /** Length of the run of whitespace that starts `s`;
      `WhitespaceRunMaximal` states that the run is maximal. */
  function WhitespaceRun(s: string): (i: nat)
    ensures i <= |s|
  {
    if s == [] || !IsWhitespace(s[0]) then 0 else 1 + WhitespaceRun(s[1..])
  }

  /** The run is all whitespace, and the character after it is not. */
  lemma {:induction false} WhitespaceRunMaximal(s: string)
    ensures forall j :: 0 <= j < WhitespaceRun(s) ==> IsWhitespace(s[j])
    ensures WhitespaceRun(s) < |s| ==> !IsWhitespace(s[WhitespaceRun(s)])
  {
    if s != [] && IsWhitespace(s[0]) {
      WhitespaceRunMaximal(s[1..]);
    }
  }

  /** `s` with every maximal run of whitespace replaced by one space. */
  function Squeeze(s: string): string
    decreases |s|
  {
    if s == [] then []
    else if IsWhitespace(s[0]) then [' '] + Squeeze(s[WhitespaceRun(s)..])
    else [s[0]] + Squeeze(s[1..])
  }

  /** `s.split(/\s+/)`: a run of whitespace separates two pieces.
      `SplitWhitespaceShape` states which pieces can be empty and what they
      join back to. */
  function SplitWhitespace(s: string): (r: seq<string>)
    ensures |r| >= 1
    ensures forall i :: 0 <= i < |r| ==> NoWhitespace(r[i])
    decreases |s|
  {
    var i := WhitespaceIndex(s);
    if i == |s| then [s]
    else [s[..i]] + SplitWhitespace(s[i + WhitespaceRun(s[i..])..])
  }

  /** Pieces `r` of `s` are non-empty except the first, which is empty
      exactly when `s` starts with whitespace, and the last, which is empty
      exactly when `s` ends with it. */
  ghost predicate PiecesShape(s: string, r: seq<string>)
  {
    && |r| >= 1
    && (forall i :: 0 < i < |r| - 1 ==> |r[i]| >= 1)
    && (r[0] == [] <==> s == [] || IsWhitespace(s[0]))
    && (r[|r| - 1] == [] <==> s == [] || IsWhitespace(s[|s| - 1]))
  }

  /** The pieces of `split(/\s+/)` are non-empty except the first, which is
      empty exactly when `s` starts with whitespace, and the last, which is
      empty exactly when `s` ends with it. */
  lemma {:induction false} SplitWhitespaceShape(s: string)
    ensures var r := SplitWhitespace(s);
      && (forall i :: 0 < i < |r| - 1 ==> |r[i]| >= 1)
      && (r[0] == [] <==> s == [] || IsWhitespace(s[0]))
      && (r[|r| - 1] == [] <==> s == [] || IsWhitespace(s[|s| - 1]))
  {
    SplitWhitespacePieces(s);
  }

  lemma {:induction false} SplitWhitespacePieces(s: string)
    ensures PiecesShape(s, SplitWhitespace(s))
    decreases |s|
  {
    var i := WhitespaceIndex(s);
    if i == |s| {
      SplitWhitespaceWord(s);
    } else {
      var n := WhitespaceRun(s[i..]);
      var rest := s[i + n..];
      SplitWhitespacePieces(rest);
      SplitWhitespaceUnfold(s, i, n);
      var r := SplitWhitespace(rest);
      SplitWhitespaceEnds(s, i, n, r);
      assert SplitWhitespace(s) == [s[..i]] + r;
    }
  }

  /** A string without whitespace is its own single piece. */
  lemma {:induction false} SplitWhitespaceWord(s: string)
    requires WhitespaceIndex(s) == |s|
    ensures SplitWhitespace(s) == [s] && PiecesShape(s, [s])
  {
  }

  /** Joined with single spaces, the pieces of `split(/\s+/)` give `s` with
      every whitespace run squeezed to one space. */
  lemma {:induction false} SplitWhitespaceSqueezed(s: string)
    ensures Join(SplitWhitespace(s), ' ') == Squeeze(s)
    decreases |s|
  {
    var i := WhitespaceIndex(s);
    if i == |s| {
      SplitWhitespaceWord(s);
      SqueezeWord(s, []);
      AppendEmpty(s);
    } else {
      var n := WhitespaceRun(s[i..]);
      SplitWhitespaceSqueezed(s[i + n..]);
      SplitWhitespaceSqueezedStep(s, i, n, SplitWhitespace(s[i + n..]));
    }
  }

  /** The inductive step of `SplitWhitespaceSqueezed`. */
  lemma {:induction false} SplitWhitespaceSqueezedStep(s: string, i: nat, n: nat, r: seq<string>)
    requires i == WhitespaceIndex(s) && i < |s|
    requires n == WhitespaceRun(s[i..])
    requires r == SplitWhitespace(s[i + n..])
    requires Join(r, ' ') == Squeeze(s[i + n..])
    ensures Join(SplitWhitespace(s), ' ') == Squeeze(s)
  {
    var w, u := s[..i], s[i..];
    SplitWhitespaceUnfold(s, i, n);
    SliceTwice(s, i, n);
    SplitWhitespaceJoinStep(w, u, n, r);
    SliceSplit(s, i);
    JoinedSqueezed(s, w, u, r);
  }

  /** Rewriting `SplitWhitespace(s)` and `s` by their parts. */
  lemma {:induction false} JoinedSqueezed(s: string, w: string, u: string, r: seq<string>)
    requires SplitWhitespace(s) == [w] + r
    requires Join([w] + r, ' ') == Squeeze(w + u)
    requires w + u == s
    ensures Join(SplitWhitespace(s), ' ') == Squeeze(s)
  {
  }

  /** One step of `split(/\s+/)`: the first piece `s[..i]`, then the pieces
      after the whitespace run of length `n` that ends it. */
  lemma {:induction false} SplitWhitespaceUnfold(s: string, i: nat, n: nat)
    requires i == WhitespaceIndex(s) && i < |s|
    requires n == WhitespaceRun(s[i..])
    ensures i + n <= |s| && SplitWhitespace(s) == [s[..i]] + SplitWhitespace(s[i + n..])
  {
  }

  /** The pieces of a lower-case string are lower case. */
  lemma {:induction false} SplitWhitespaceLower(s: string)
    requires IsLower(s)
    ensures forall i :: 0 <= i < |SplitWhitespace(s)| ==> IsLower(SplitWhitespace(s)[i])
    decreases |s|
  {
    var i := WhitespaceIndex(s);
    if i < |s| {
      var rest := s[i + WhitespaceRun(s[i..])..];
      SplitWhitespaceLower(rest);
      SplitWhitespaceUnfold(s, i, WhitespaceRun(s[i..]));
    }
  }

  /** Every character of a piece of `split(/\s+/)` is a character of `s`. */
  lemma {:induction false} SplitWhitespaceChars(s: string)
    ensures var r := SplitWhitespace(s);
      forall k, j :: 0 <= k < |r| && 0 <= j < |r[k]| ==> r[k][j] in s
    decreases |s|
  {
    var i := WhitespaceIndex(s);
    if i == |s| {
      SplitWhitespaceWord(s);
    } else {
      var n := WhitespaceRun(s[i..]);
      var rest := s[i + n..];
      SplitWhitespaceChars(rest);
      SplitWhitespaceUnfold(s, i, n);
      PiecesChars(s, i, n, SplitWhitespace(rest));
    }
  }

  /** The prefix `s[..i]` followed by pieces made of characters of
      `s[i + n..]` are pieces made of characters of `s`. */
  lemma {:induction false} PiecesChars(s: string, i: nat, n: nat, tail: seq<string>)
    requires i + n <= |s|
    requires forall k, j :: 0 <= k < |tail| && 0 <= j < |tail[k]| ==> tail[k][j] in s[i + n..]
    ensures var r := [s[..i]] + tail;
      forall k, j :: 0 <= k < |r| && 0 <= j < |r[k]| ==> r[k][j] in s
  {
    var r := [s[..i]] + tail;
    forall k, j | 0 <= k < |r| && 0 <= j < |r[k]| ensures r[k][j] in s {
      if k == 0 {
        assert r[k][j] == s[j];
      } else {
        assert r[k] == tail[k - 1];
        var rest := s[i + n..];
        var t :| 0 <= t < |rest| && rest[t] == r[k][j];
        assert s[i + n + t] == rest[t];
      }
    }
  }

  /** The pieces after the first piece `s[..i]` and the whitespace run of
      length `n` that follows it: the middle ones stay non-empty and the last
      one is empty exactly when `s` ends with whitespace. */
  lemma {:induction false} SplitWhitespaceEnds(s: string, i: nat, n: nat, r: seq<string>)
    requires i < |s| && IsWhitespace(s[i]) && NoWhitespace(s[..i])
    requires n == WhitespaceRun(s[i..])
    requires PiecesShape(s[i + n..], r)
    requires s[i + n..] == [] ==> r == [[]]
    ensures PiecesShape(s, [s[..i]] + r)
  {
    var rest := s[i + n..];
    var t := [s[..i]] + r;
    WhitespaceRunMaximal(s[i..]);
    if rest != [] {
      assert !IsWhitespace(s[i..][n]);
      assert rest[|rest| - 1] == s[|s| - 1];
    } else {
      assert IsWhitespace(s[i..][|s| - 1 - i]);
    }
    assert t[0] == [] <==> i == 0;
  }

  /** A whitespace-free word `w`, then text `u` that starts with a run of `n`
      whitespace characters: joining `w` before the pieces of the rest gives
      the squeezed text. */
  lemma {:induction false} SplitWhitespaceJoinStep(w: string, u: string, n: nat, r: seq<string>)
    requires NoWhitespace(w)
    requires |u| >= 1 && IsWhitespace(u[0]) && n == WhitespaceRun(u)
    requires |r| >= 1 && Join(r, ' ') == Squeeze(u[n..])
    ensures Join([w] + r, ' ') == Squeeze(w + u)
  {
    SqueezeRun(u, n);
    JoinCons(w, r, ' ');
    SqueezeWord(w, u);
    AppendAssoc(w, [' '], Squeeze(u[n..]));
  }

  lemma {:induction false} AppendAssoc<T>(a: seq<T>, b: seq<T>, c: seq<T>)
    ensures a + b + c == a + (b + c)
  {
  }

  lemma {:induction false} AppendEmpty<T>(s: seq<T>)
    ensures s + [] == s
  {
  }

  lemma {:induction false} SliceSplit<T>(s: seq<T>, i: nat)
    requires i <= |s|
    ensures s[..i] + s[i..] == s
  {
  }

  lemma {:induction false} SliceTwice<T>(s: seq<T>, i: nat, n: nat)
    requires i + n <= |s|
    ensures s[i..][n..] == s[i + n..]
  {
  }

  /** A maximal run of whitespace at the front squeezes to one space. */
  lemma {:induction false} SqueezeRun(u: string, n: nat)
    requires |u| >= 1 && IsWhitespace(u[0]) && n == WhitespaceRun(u)
    ensures n <= |u| && Squeeze(u) == [' '] + Squeeze(u[n..])
  {
  }

  /** `toLowerCase` on one character: the ASCII and Latin-1 capitals. */
  function LowerChar(c: char): char
  {
    var n := c as int;
    if 0x41 <= n <= 0x5A || (0xC0 <= n <= 0xDE && n != 0xD7) then (n + 0x20) as char else c
  }

  /** `s.toLowerCase()`: the result is lower case, and a string that already
      is comes back unchanged. */
  function ToLower(s: string): (r: string)
    ensures |r| == |s|
    ensures IsLower(r)
    ensures IsLower(s) ==> r == s
  {
    seq(|s|, i requires 0 <= i < |s| => LowerChar(s[i]))
  }

  predicate IsLower(s: string)
  {
    forall i :: 0 <= i < |s| ==> LowerChar(s[i]) == s[i]
  }

  /** The decimal digits of `n`, as template-literal interpolation writes
      them: no leading zero, except in the single digit of 0. */
  function NatToDecimal(n: nat): (r: string)
    ensures |r| >= 1
    ensures forall i :: 0 <= i < |r| ==> '0' <= r[i] <= '9'
    ensures r[0] == '0' <==> n == 0
    ensures n == 0 ==> r == "0"
  {
    var d := (n % 10 + '0' as int) as char;
    if n < 10 then [d] else NatToDecimal(n / 10) + [d]
  }

  /** The number a string of decimal digits denotes; the empty string
      denotes 0. */
  function DecimalValue(s: string): nat
    requires forall i :: 0 <= i < |s| ==> '0' <= s[i] <= '9'
  {
    if s == [] then 0
    else DecimalValue(s[..|s| - 1]) * 10 + (s[|s| - 1] as int - '0' as int)
  }

  function Pow10(n: nat): (r: nat)
    ensures r >= 1
  {
    if n == 0 then 1 else 10 * Pow10(n - 1)
  }

  /** `s` left-padded with zeros to `width` characters, as `toFixed` writes
      the fractional digits. */
  function ZeroPad(s: string, width: nat): (r: string)
    ensures |r| == Max(|s|, width)
    ensures |r| >= |s| && r[|r| - |s|..] == s
    ensures forall i :: 0 <= i < |r| - |s| ==> r[i] == '0'
  {
    if |s| >= width then s else seq(width - |s|, _ => '0') + s
  }

  // ---------------------------------------------------------------------
  // Lemmas about split and join
  // ---------------------------------------------------------------------

  /** Splitting a join of separator-free pieces at the separator gives the
      pieces back: with `SplitOn`'s own contract, the two are inverse. */
  lemma {:induction false} SplitJoinOn(pieces: seq<string>, sep: char)
    requires |pieces| >= 1
    requires forall i :: 0 <= i < |pieces| ==> sep !in pieces[i]
    ensures SplitOn(Join(pieces, sep), sep) == pieces
  {
    var p := pieces[0];
    if |pieces| > 1 {
      var tail := pieces[1..];
      var rest := Join(tail, sep);
      SplitJoinOn(tail, sep);
      JoinUnfold(pieces, sep);
      IndexOfAfter(p, sep, rest);
      SplitOnUnfold(p + [sep] + rest, sep, |p|);
      AroundSlices(p, sep, rest);
      ConsTail(pieces);
    }
  }

  /** One step of `split(sep)` at the first separator, at position `i`. */
  lemma {:induction false} SplitOnUnfold(s: string, sep: char, i: nat)
    requires i == IndexOf(s, sep) && i < |s|
    ensures SplitOn(s, sep) == [s[..i]] + SplitOn(s[i + 1..], sep)
  {
  }

  /** One step of `join`. */
  lemma {:induction false} JoinUnfold(pieces: seq<string>, sep: char)
    requires |pieces| >= 2
    ensures Join(pieces, sep) == pieces[0] + [sep] + Join(pieces[1..], sep)
  {
  }

  lemma {:induction false} AroundSlices(a: string, c: char, b: string)
    ensures (a + [c] + b)[..|a|] == a && (a + [c] + b)[|a| + 1..] == b
  {
  }

  /** `a` is a prefix of `a + [c] + b`, followed there by `c`. */
  lemma {:induction false} SeparatedPrefix<T>(a: seq<T>, c: T, b: seq<T>)
    ensures a <= a + [c] + b && |a| < |a + [c] + b| && (a + [c] + b)[|a|] == c
  {
  }

  lemma {:induction false} ConsTail<T>(s: seq<T>)
    requires |s| >= 1
    ensures s == [s[0]] + s[1..]
  {
  }

  /** A string is the part before position `i`, the character at `i` and the
      part after it. */
  lemma {:induction false} SplitAround(s: string, i: nat)
    requires i < |s|
    ensures s == s[..i] + [s[i]] + s[i + 1..]
  {
  }

  lemma {:induction false} JoinCons(p: string, rest: seq<string>, sep: char)
    requires |rest| >= 1
    ensures Join([p] + rest, sep) == p + [sep] + Join(rest, sep)
  {
    var ps := [p] + rest;
    assert ps[0] == p && ps[1..] == rest;
  }

  lemma {:induction false} CountAppend(a: string, b: string, c: char)
    ensures Count(a + b, c) == Count(a, c) + Count(b, c)
  {
    if a == [] {
      assert a + b == b;
    } else {
      assert (a + b)[1..] == a[1..] + b;
      CountAppend(a[1..], b, c);
    }
  }

  lemma {:induction false} CountAbsent(s: string, c: char)
    ensures c !in s ==> Count(s, c) == 0
  {
    if s != [] {
      CountAbsent(s[1..], c);
    }
  }

  /** A separator between two strings adds one to their counts. */
  lemma {:induction false} CountSeparated(a: string, c: char, b: string)
    ensures Count(a + [c] + b, c) == Count(a, c) + 1 + Count(b, c)
  {
    CountAppend(a, [c], c);
    CountAppend(a + [c], b, c);
    assert Count([c], c) == 1 by {
      assert [c][1..] == [];
    }
  }

  /** Joining two non-empty lists of pieces puts one separator between the
      two joins. */
  lemma {:induction false} JoinAppend(a: seq<string>, b: seq<string>, sep: char)
    requires |a| >= 1 && |b| >= 1
    ensures Join(a + b, sep) == Join(a, sep) + [sep] + Join(b, sep)
  {
    var ab := a + b;
    AppendHead(a, b);
    JoinUnfold(ab, sep);
    if |a| == 1 {
      AppendAssoc(a[0], [sep], Join(b, sep));
    } else {
      JoinAppend(a[1..], b, sep);
      JoinUnfold(a, sep);
      AppendAssoc(a[0] + [sep], Join(a[1..], sep), [sep] + Join(b, sep));
      AppendAssoc(Join(a, sep), [sep], Join(b, sep));
      AppendAssoc(Join(a[1..], sep), [sep], Join(b, sep));
    }
  }

  /** The head and tail of `a + b` for a non-empty `a`. */
  lemma {:induction false} AppendHead<T>(a: seq<T>, b: seq<T>)
    requires |a| >= 1
    ensures (a + b)[0] == a[0] && (a + b)[1..] == a[1..] + b
  {
  }

  /** `s.split(sep)` has one more piece than `s` has separators. */
  lemma {:induction false} SplitOnLength(s: string, sep: char)
    ensures |SplitOn(s, sep)| == Count(s, sep) + 1
  {
  }

  lemma {:induction false} WhitespaceIndexAppend(a: string, b: string)
    requires NoWhitespace(a)
    ensures WhitespaceIndex(a + b) == |a| + WhitespaceIndex(b)
  {
    if a == [] {
      assert a + b == b;
    } else {
      assert (a + b)[1..] == a[1..] + b;
      WhitespaceIndexAppend(a[1..], b);
    }
  }

  /** A whitespace-free prefix passes `Squeeze` unchanged. */
  lemma {:induction false} SqueezeWord(w: string, t: string)
    requires NoWhitespace(w)
    ensures Squeeze(w + t) == w + Squeeze(t)
  {
    if w != [] {
      SqueezeWord(w[1..], t);
      assert (w + t)[1..] == w[1..] + t;
    } else {
      assert w + t == t;
    }
  }

  /** `split(/\s+/)` is `split(' ')` of the squeezed string: an independent
      definition that fixes every piece. */
  lemma {:induction false} SplitWhitespaceBySqueeze(s: string)
    ensures SplitWhitespace(s) == SplitOn(Squeeze(s), ' ')
  {
    var r := SplitWhitespace(s);
    SplitWhitespaceSqueezed(s);
    assert IsWhitespace(' ');
    SplitJoinOn(r, ' ');
  }

  /** A whitespace-free word, one space, then text that does not start with
      whitespace: the split yields the word, then the split of the text. */
  lemma {:induction false} SplitWhitespaceStep(w: string, rest: string)
    requires NoWhitespace(w)
    requires |rest| >= 1 && !IsWhitespace(rest[0])
    ensures SplitWhitespace(w + [' '] + rest) == [w] + SplitWhitespace(rest)
  {
    var s := w + [' '] + rest;
    assert s == w + ([' '] + rest);
    WhitespaceIndexAppend(w, [' '] + rest);
    assert WhitespaceIndex(s) == |w|;
    assert s[..|w|] == w;
    assert s[|w|..] == [' '] + rest;
    assert WhitespaceRun([' '] + rest) == 1 by {
      assert ([' '] + rest)[1..] == rest;
    }
    assert s[|w| + 1..] == rest;
  }

  /** Joining non-empty, whitespace-free pieces with single spaces and
      splitting at whitespace gives the pieces back. */
  lemma {:induction false} SplitWhitespaceJoin(pieces: seq<string>)
    requires |pieces| >= 1
    requires forall i :: 0 <= i < |pieces| ==> |pieces[i]| >= 1 && NoWhitespace(pieces[i])
    ensures SplitWhitespace(Join(pieces, ' ')) == pieces
  {
    var w := pieces[0];
    if |pieces| == 1 {
      WhitespaceIndexAppend(w, []);
      assert w + [] == w;
    } else {
      var rest := Join(pieces[1..], ' ');
      SplitWhitespaceJoin(pieces[1..]);
      FirstOfJoin(pieces[1..], ' ');
      SplitWhitespaceStep(w, rest);
      assert pieces == [w] + pieces[1..];
    }
  }

  /** A join starts with the first character of its first non-empty piece. */
  lemma {:induction false} FirstOfJoin(pieces: seq<string>, sep: char)
    requires |pieces| >= 1 && |pieces[0]| >= 1
    ensures |Join(pieces, sep)| >= 1 && Join(pieces, sep)[0] == pieces[0][0]
  {
  }

  // ---------------------------------------------------------------------
  // Lemmas about toLowerCase
  // ---------------------------------------------------------------------

  lemma {:induction false} ToLowerAppend(a: string, b: string)
    ensures ToLower(a + b) == ToLower(a) + ToLower(b)
  {
  }

  /** Lower-casing a join of lower-case pieces with a space changes nothing. */
  lemma {:induction false} ToLowerJoin(pieces: seq<string>)
    requires forall i :: 0 <= i < |pieces| ==> IsLower(pieces[i])
    ensures ToLower(Join(pieces, ' ')) == Join(pieces, ' ')
  {
    if |pieces| == 1 {
      assert ToLower(pieces[0]) == pieces[0];
    } else if |pieces| > 1 {
      ToLowerJoin(pieces[1..]);
      ToLowerAppend(pieces[0] + [' '], Join(pieces[1..], ' '));
      ToLowerAppend(pieces[0], [' ']);
      assert ToLower(pieces[0]) == pieces[0];
    }
  }

  // ---------------------------------------------------------------------
  // Lemmas about decimal digits
  // ---------------------------------------------------------------------

  /** Reading back the digits of `n` gives `n`. */
  lemma {:induction false} DecimalRoundTrip(n: nat)
    ensures DecimalValue(NatToDecimal(n)) == n
  {
    var s := NatToDecimal(n);
    if n >= 10 {
      DecimalRoundTrip(n / 10);
      assert s[..|s| - 1] == NatToDecimal(n / 10);
    }
  }

  /** Leading zeros do not change the value. */
  lemma {:induction false} DecimalValueZeros(n: nat)
    ensures DecimalValue(seq(n, _ => '0')) == 0
  {
    if n > 0 {
      DecimalValueZeros(n - 1);
      assert seq(n, _ => '0')[..n - 1] == seq(n - 1, _ => '0');
    }
  }

  /** The first `c` of `a + [c] + b`, when `a` has none, is right after `a`. */
  lemma {:induction false} IndexOfAfter(a: string, c: char, b: string)
    requires c !in a
    ensures IndexOf(a + [c] + b, c) == |a|
  {
    if a != [] {
      IndexOfAfter(a[1..], c, b);
      assert (a + [c] + b)[1..] == a[1..] + [c] + b;
    }
  }

  /** The first `x` of `[h] + t`. */
  lemma {:induction false} IndexOfCons<T>(h: T, t: seq<T>, x: T)
    ensures IndexOf([h] + t, x) == if h == x then 0 else 1 + IndexOf(t, x)
  {
    AppendHead([h], t);
  }

  /** The first `x` of `a + b` is the first `x` of `a`, or, when `a` has
      none, the first `x` of `b` shifted by `|a|`. */
  lemma {:induction false} IndexOfAppend<T>(a: seq<T>, b: seq<T>, x: T)
    ensures IndexOf(a + b, x) == if x in a then IndexOf(a, x) else |a| + IndexOf(b, x)
  {
    if a == [] {
      assert a + b == b;
    } else {
      IndexOfAppend(a[1..], b, x);
      AppendHead(a, b);
      ConsTail(a);
    }
  }

  /** Leading zeros do not change the value of a digit string. */
  lemma {:induction false} DecimalValueLeadingZeros(n: nat, s: string)
    requires forall i :: 0 <= i < |s| ==> '0' <= s[i] <= '9'
    ensures DecimalValue(seq(n, _ => '0') + s) == DecimalValue(s)
    decreases |s|
  {
    var z := seq(n, _ => '0');
    if s == [] {
      assert z + s == z;
      DecimalValueZeros(n);
    } else {
      var init := s[..|s| - 1];
      DecimalValueLeadingZeros(n, init);
      var zs := z + s;
      assert zs[..|zs| - 1] == z + init;
      assert zs[|zs| - 1] == s[|s| - 1];
    }
  }

  /** Zero-padding keeps the value of a digit string. */
  lemma {:induction false} ZeroPadValue(s: string, width: nat)
    requires forall i :: 0 <= i < |s| ==> '0' <= s[i] <= '9'
    ensures forall i :: 0 <= i < |ZeroPad(s, width)| ==> '0' <= ZeroPad(s, width)[i] <= '9'
    ensures DecimalValue(ZeroPad(s, width)) == DecimalValue(s)
  {
    if |s| < width {
      DecimalValueLeadingZeros(width - |s|, s);
    }
  }

  /** A number below 10^k has at most k digits. */
  lemma {:induction false} DecimalLength(n: nat, k: nat)
    requires n < Pow10(k)
    ensures |NatToDecimal(n)| <= Max(k, 1)
  {
    if n >= 10 {
      assert k >= 1;
      DecimalLength(n / 10, k - 1);
    }
  }
}
