/**
 The string operations the bridge applies to class names, text content and tag
 names: `trim`, `split(/\s+/)`, `filter(c => c)`, `join`, ASCII lower-casing and
 the decimal rendering of an index.
 */
module Text {

  /** The code points ECMAScript calls WhiteSpace or LineTerminator: exactly the
      set that `String.prototype.trim` strips and that `\s` matches. */
  predicate IsSpace(c: char) {
    || c == '\t' || c == '\n' || c == '\U{000B}' || c == '\U{000C}' || c == '\r'
    || c == ' ' || c == '\U{00A0}' || c == '\U{1680}'
    || ('\U{2000}' <= c <= '\U{200A}')
    || c == '\U{2028}' || c == '\U{2029}' || c == '\U{202F}' || c == '\U{205F}'
    || c == '\U{3000}' || c == '\U{FEFF}'
  }

  predicate AllSpace(s: string) {
    forall i :: 0 <= i < |s| ==> IsSpace(s[i])
  }

  predicate NoSpace(s: string) {
    forall i :: 0 <= i < |s| ==> !IsSpace(s[i])
  }

  /** A class token as the script sees it: non-empty and free of white space. */
  predicate IsToken(t: string) {
    t != [] && NoSpace(t)
  }

  predicate AllTokens(ts: seq<string>) {
    forall k :: 0 <= k < |ts| ==> IsToken(ts[k])
  }

  // ---------------------------------------------------------------- trim

  /** The suffix left after dropping the leading white space. */
  function TrimStart(s: string): (r: string)
    ensures |r| <= |s| && r == s[|s| - |r|..]
    ensures AllSpace(s[..|s| - |r|])
    ensures r == [] || !IsSpace(r[0])
  {
    if |s| > 0 && IsSpace(s[0]) then
      var r := TrimStart(s[1..]);
      assert s[..|s| - |r|] == [s[0]] + s[1..][..|s[1..]| - |r|];
      r
    else s
  }

  /** The prefix left after dropping the trailing white space. */
  function TrimEnd(s: string): (r: string)
    ensures |r| <= |s| && r == s[..|r|]
    ensures AllSpace(s[|r|..])
    ensures r == [] || !IsSpace(r[|r| - 1])
  {
    if |s| > 0 && IsSpace(s[|s| - 1]) then
      var r := TrimEnd(s[..|s| - 1]);
      assert s[|r|..] == s[..|s| - 1][|r|..] + [s[|s| - 1]];
      r
    else s
  }

  /** `r` is the middle of `s` from index `i`: an all-white-space prefix, then
      `r`, then an all-white-space suffix, and `r` neither starts nor ends with
      white space. */
  predicate TrimmedFrom(s: string, i: int, r: string) {
    && 0 <= i && i + |r| <= |s| && r == s[i..i + |r|]
    && AllSpace(s[..i]) && AllSpace(s[i + |r|..])
    && (r == [] || (!IsSpace(r[0]) && !IsSpace(r[|r| - 1])))
  }

  /** `s.trim()`: the middle of `s` once white space is stripped from both ends. */
  function Trim(s: string): (r: string)
    ensures TrimmedFrom(s, |s| - |TrimStart(s)|, r)
  {
    var u := TrimStart(s);
    var r := TrimEnd(u);
    TrimSlices(s, u, r);
    r
  }

  lemma TrimSlices(s: string, u: string, r: string)
    requires |u| <= |s| && u == s[|s| - |u|..] && AllSpace(s[..|s| - |u|])
    requires |r| <= |u| && r == u[..|r|] && AllSpace(u[|r|..])
    requires u == [] || !IsSpace(u[0])
    requires r == [] || !IsSpace(r[|r| - 1])
    ensures TrimmedFrom(s, |s| - |u|, r)
  {
    var i := |s| - |u|;
    assert s[i..i + |r|] == r && s[i + |r|..] == u[|r|..];
  }

  /** A string trims to nothing exactly when it is all white space. */
  lemma TrimEmptyIffAllSpace(s: string)
    ensures Trim(s) == [] <==> AllSpace(s)
  {
    var i := |s| - |TrimStart(s)|;
    var t := Trim(s);
    assert TrimmedFrom(s, i, t);
    if t == [] {
      assert s == s[..i] + s[i..];
      assert s[i..] == s[i + |t|..];
    } else {
      assert s[i] == t[0];
    }
  }

  lemma TrimStartOfTrimmed(s: string)
    requires s == [] || !IsSpace(s[0])
    ensures TrimStart(s) == s
  {
  }

  lemma TrimEndOfTrimmed(s: string)
    requires s == [] || !IsSpace(s[|s| - 1])
    ensures TrimEnd(s) == s
  {
  }

  /** Trimming is idempotent, and a string is its own trim exactly when neither
      end is white space. */
  lemma TrimIdempotent(s: string)
    ensures Trim(Trim(s)) == Trim(s)
    ensures Trim(s) == s <==> (s == [] || (!IsSpace(s[0]) && !IsSpace(s[|s| - 1])))
  {
    var t := Trim(s);
    TrimStartOfTrimmed(t);
    TrimEndOfTrimmed(t);
    if s == [] || (!IsSpace(s[0]) && !IsSpace(s[|s| - 1])) {
      TrimStartOfTrimmed(s);
      TrimEndOfTrimmed(s);
    }
  }

  // ---------------------------------------------------------------- split

  /** Length of the leading run of non-space characters: the index of the first
      white space, or `|s|` when there is none. */
  function WordLength(s: string): (n: nat)
    ensures n <= |s|
    ensures NoSpace(s[..n])
    ensures n == |s| || IsSpace(s[n])
  {
    if s == [] || IsSpace(s[0]) then 0
    else
      var m := WordLength(s[1..]);
      assert s[..m + 1] == [s[0]] + s[1..][..m];
      m + 1
  }

  /** `s.split(/\s+/)`: the first piece runs up to the first white space; the
      maximal white-space run there is the separator; splitting resumes after it.
      Leading or trailing white space yields an empty piece, and `""` gives `[""]`. */
  function SplitOnSpace(s: string): (r: seq<string>)
    ensures |r| >= 1
    ensures forall k :: 0 <= k < |r| ==> NoSpace(r[k])
    decreases |s|
  {
    var n := WordLength(s);
    if n == |s| then [s]
    else [s[..n]] + SplitOnSpace(TrimStart(s[n..]))
  }

  /** `pieces.filter(c => c)`: the empty string is falsy, every other string truthy. */
  function DropEmpty(pieces: seq<string>): (r: seq<string>)
    ensures forall k :: 0 <= k < |r| ==> r[k] != []
    ensures forall k :: 0 <= k < |r| ==> r[k] in pieces
    ensures forall k :: 0 <= k < |pieces| && pieces[k] != [] ==> pieces[k] in r
  {
    if pieces == [] then []
    else if pieces[0] == [] then DropEmpty(pieces[1..])
    else [pieces[0]] + DropEmpty(pieces[1..])
  }

  /** The class-token pipeline, stage by stage as written:
      `className.trim().split(/\s+/).filter(c => c)`. */
  function ClassTokens(className: string): (r: seq<string>)
    ensures AllTokens(r)
  {
    DropEmpty(SplitOnSpace(Trim(className)))
  }

  // ---------------------------------------------------------------- words

  /** Reference definition of a token list: the maximal white-space-free runs of
      `s`, left to right. */
  function Words(s: string): (r: seq<string>)
    ensures AllTokens(r)
    decreases |s|
  {
    if s == [] then []
    else if IsSpace(s[0]) then Words(s[1..])
    else
      var n := WordLength(s);
      [s[..n]] + Words(s[n..])
  }

  lemma DropEmptyAppend(a: seq<string>, b: seq<string>)
    ensures DropEmpty(a + b) == DropEmpty(a) + DropEmpty(b)
  {
    if a == [] {
      assert a + b == b;
    } else {
      assert (a + b)[0] == a[0];
      assert (a + b)[1..] == a[1..] + b;
      DropEmptyAppend(a[1..], b);
      if a[0] != [] {
        assert [a[0]] + DropEmpty(a[1..]) + DropEmpty(b) == [a[0]] + (DropEmpty(a[1..]) + DropEmpty(b));
      }
    }
  }

  lemma {:induction false} WordsAfterTrimStart(s: string)
    ensures Words(TrimStart(s)) == Words(s)
    decreases |s|
  {
    if |s| > 0 && IsSpace(s[0]) {
      WordsAfterTrimStart(s[1..]);
    }
  }

  lemma {:induction false} WordsOfSpaces(w: string)
    requires AllSpace(w)
    ensures Words(w) == []
    decreases |w|
  {
    if w != [] {
      WordsOfSpaces(w[1..]);
    }
  }

  lemma {:induction false} WordLengthAppend(u: string, w: string)
    requires w == [] || IsSpace(w[0])
    ensures WordLength(u + w) == WordLength(u)
    decreases |u|
  {
    if u != [] && !IsSpace(u[0]) {
      assert (u + w)[1..] == u[1..] + w;
      WordLengthAppend(u[1..], w);
    }
  }

  lemma {:induction false} WordsAppendSpaces(u: string, w: string)
    requires AllSpace(w)
    ensures Words(u + w) == Words(u)
    decreases |u|
  {
    if u == [] {
      assert u + w == w;
      WordsOfSpaces(w);
    } else if IsSpace(u[0]) {
      assert (u + w)[1..] == u[1..] + w;
      WordsAppendSpaces(u[1..], w);
    } else {
      var n := WordLength(u);
      if n == |u| {
        WordLengthAppend(u, w);
        assert (u + w)[..n] == u[..n];
        assert (u + w)[n..] == w;
        WordsOfSpaces(w);
        assert u[n..] == [];
      } else {
        WordLengthAppend(u, []);
        assert u + [] == u;
        assert WordLength(u + w) == n by {
          assert u + w == u[..n] + (u[n..] + w);
          assert u == u[..n] + u[n..];
          WordLengthAppend(u[..n], u[n..] + w);
          WordLengthAppend(u[..n], u[n..]);
        }
        assert (u + w)[..n] == u[..n];
        assert (u + w)[n..] == u[n..] + w;
        WordsAppendSpaces(u[n..], w);
      }
    }
  }

  lemma WordsAfterTrimEnd(s: string)
    ensures Words(TrimEnd(s)) == Words(s)
  {
    var r := TrimEnd(s);
    assert s == r + s[|r|..];
    WordsAppendSpaces(r, s[|r|..]);
  }

  /** Splitting and then dropping empty pieces yields exactly the words; this
      holds whether or not the string was trimmed first. */
  lemma {:induction false} SplitThenDropIsWords(s: string)
    ensures DropEmpty(SplitOnSpace(s)) == Words(s)
    decreases |s|
  {
    var n := WordLength(s);
    if n == |s| {
      if s != [] {
        assert s[..n] == s;
        assert s[n..] == [];
      }
    } else {
      var rest := TrimStart(s[n..]);
      DropEmptyAppend([s[..n]], SplitOnSpace(rest));
      SplitThenDropIsWords(rest);
      WordsAfterTrimStart(s[n..]);
      if n == 0 {
        assert s[n..] == s;
      }
    }
  }

  /** The script's token pipeline agrees with the reference word list. */
  lemma ClassTokensAreWords(className: string)
    ensures ClassTokens(className) == Words(className)
  {
    SplitThenDropIsWords(Trim(className));
    WordsAfterTrimEnd(TrimStart(className));
    WordsAfterTrimStart(className);
  }

  // ---------------------------------------------------------------- join

  /** `parts.join(sep)`: the first part opens the result and the last closes it. */
  function Join(parts: seq<string>, sep: string): (r: string)
    ensures |parts| == 0 ==> r == []
    ensures |parts| > 0 ==> |parts[0]| <= |r| && r[..|parts[0]|] == parts[0]
  {
    if |parts| == 0 then []
    else if |parts| == 1 then parts[0]
    else parts[0] + sep + Join(parts[1..], sep)
  }

  lemma {:induction false} WordLengthOfToken(t: string)
    requires NoSpace(t)
    ensures WordLength(t) == |t|
  {
    if t != [] {
      WordLengthOfToken(t[1..]);
    }
  }

  /** Tokens joined with single spaces split back into the same tokens: the
      word list inverts space-joining. */
  lemma {:induction false} WordsOfJoin(ts: seq<string>)
    requires AllTokens(ts)
    ensures Words(Join(ts, " ")) == ts
    decreases |ts|
  {
    if |ts| == 1 {
      var t := ts[0];
      WordLengthAppend(t, []);
      assert t + [] == t;
      WordLengthOfToken(t);
      assert t[..|t|] == t;
      assert t[|t|..] == [];
    } else if |ts| > 1 {
      var t := ts[0];
      var rest := Join(ts[1..], " ");
      var s := t + " " + rest;
      assert s == t + (" " + rest);
      WordLengthAppend(t, " " + rest);
      WordLengthAppend(t, []);
      assert t + [] == t;
      WordLengthOfToken(t);
      assert s[..|t|] == t;
      assert s[|t|..] == " " + rest;
      assert (" " + rest)[1..] == rest;
      WordsOfJoin(ts[1..]);
    }
  }

  /** `s.split(c)` for a one-character separator: the pieces between the
      occurrences of `c`, left to right, empty pieces included. */
  function SplitOn(s: string, c: char): (r: seq<string>)
    ensures |r| >= 1
    ensures forall k :: 0 <= k < |r| ==> c !in r[k]
    decreases |s|
  {
    if s == [] then [[]]
    else
      var rest := SplitOn(s[1..], c);
      if s[0] == c then [[]] + rest
      else [[s[0]] + rest[0]] + rest[1..]
  }

  /** A separator-free prefix glues onto the first piece of what follows. */
  lemma {:induction false} SplitOnAppend(a: string, b: string, c: char)
    requires c !in a
    ensures SplitOn(a + b, c) == [a + SplitOn(b, c)[0]] + SplitOn(b, c)[1..]
    decreases |a|
  {
    if a == [] {
      var pieces := SplitOn(b, c);
      assert a + b == b;
      assert a + pieces[0] == pieces[0];
      assert [pieces[0]] + pieces[1..] == pieces;
    } else {
      assert (a + b)[1..] == a[1..] + b;
      SplitOnAppend(a[1..], b, c);
      assert [a[0]] + (a[1..] + SplitOn(b, c)[0]) == a + SplitOn(b, c)[0];
    }
  }

  /** Parts free of the separator, joined with it, split back into the same
      parts. */
  lemma {:induction false} SplitOnJoin(parts: seq<string>, c: char)
    requires |parts| > 0
    requires forall k :: 0 <= k < |parts| ==> c !in parts[k]
    ensures SplitOn(Join(parts, [c]), c) == parts
    decreases |parts|
  {
    if |parts| == 1 {
      SplitOnAppend(parts[0], [], c);
      assert parts[0] + [] == parts[0];
    } else {
      var rest := Join(parts[1..], [c]);
      assert Join(parts, [c]) == parts[0] + ([c] + rest);
      SplitOnAppend(parts[0], [c] + rest, c);
      assert ([c] + rest)[1..] == rest;
      SplitOnJoin(parts[1..], c);
      assert parts[0] + [] == parts[0];
    }
  }

  // ---------------------------------------------------------------- case

  /** `toLowerCase` on one character, restricted to the ASCII letters. */
  function LowerChar(c: char): char {
    if 'A' <= c <= 'Z' then (c as int + 32) as char else c
  }

  predicate HasNoUpperAscii(s: string) {
    forall i :: 0 <= i < |s| ==> !('A' <= s[i] <= 'Z')
  }

  /** `s.toLowerCase()` on ASCII letters; every other character is kept. */
  function ToLower(s: string): (r: string)
    ensures |r| == |s|
    ensures HasNoUpperAscii(r)
    ensures forall i :: 0 <= i < |s| && !('A' <= s[i] <= 'Z') ==> r[i] == s[i]
    ensures forall i :: 0 <= i < |s| && 'A' <= s[i] <= 'Z' ==> r[i] == (s[i] as int + 32) as char
  {
    if s == [] then [] else [LowerChar(s[0])] + ToLower(s[1..])
  }

  lemma {:induction false} ToLowerIdempotent(s: string)
    ensures ToLower(ToLower(s)) == ToLower(s)
    decreases |s|
  {
    if s != [] {
      ToLowerIdempotent(s[1..]);
      assert ToLower(s)[1..] == ToLower(s[1..]);
    }
  }

  // ---------------------------------------------------------------- numbers

  predicate IsDigit(c: char) {
    '0' <= c <= '9'
  }

  function DigitChar(d: nat): (c: char)
    requires d < 10
    ensures IsDigit(c)
  {
    ('0' as int + d) as char
  }

  /** Template-literal rendering of a non-negative integer: decimal digits with
      no leading zero. */
  function NatToString(n: nat): (r: string)
    ensures |r| >= 1
    ensures forall i :: 0 <= i < |r| ==> IsDigit(r[i])
    ensures |r| > 1 ==> r[0] != '0'
    ensures n < 10 <==> |r| == 1
  {
    if n < 10 then [DigitChar(n)]
    else NatToString(n / 10) + [DigitChar(n % 10)]
  }

  /** Reference reading of a digit string. */
  function ParseDigits(s: string): nat
    requires forall i :: 0 <= i < |s| ==> IsDigit(s[i])
  {
    if s == [] then 0
    else
      assert IsDigit(s[|s| - 1]);
      ParseDigits(s[..|s| - 1]) * 10 + (s[|s| - 1] as int - '0' as int)
  }

  lemma {:induction false} ParseNatToString(n: nat)
    ensures ParseDigits(NatToString(n)) == n
    decreases n
  {
    if n >= 10 {
      var p := NatToString(n / 10);
      var s := p + [DigitChar(n % 10)];
      assert s[..|s| - 1] == p;
      ParseNatToString(n / 10);
    }
  }
}
