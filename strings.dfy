/** Character and string helpers with the meaning Python's str methods give them:
    strip, lower/upper, split() on whitespace, split(sep), isdigit, int(), str(), zfill. */
module Strings {

  datatype Option<T> = None | Some(value: T)

  /** Whitespace as Python's str.isspace() sees it (ASCII and Latin-1 part). */
  predicate IsSpace(c: char) {
    c == ' ' || c == '\t' || c == '\n' || c == '\r' || c == '\U{B}' || c == '\U{C}'
    || ('\U{1C}' <= c <= '\U{1F}') || c == '\U{85}' || c == '\U{A0}'
  }

  predicate IsDigit(c: char) { '0' <= c <= '9' }

  /** str.isdigit(): non-empty and every character a decimal digit. */
  predicate IsDigits(s: string) {
    |s| > 0 && forall i :: 0 <= i < |s| ==> IsDigit(s[i])
  }

  function LeadingSpaces(s: string): (n: nat)
    ensures n <= |s|
    ensures forall i :: 0 <= i < n ==> IsSpace(s[i])
    ensures n < |s| ==> !IsSpace(s[n])
  {
    if s == [] || !IsSpace(s[0]) then 0 else 1 + LeadingSpaces(s[1..])
  }

  function TrailingSpaces(s: string): (n: nat)
    ensures n <= |s|
    ensures forall i :: |s| - n <= i < |s| ==> IsSpace(s[i])
    ensures n < |s| ==> !IsSpace(s[|s| - 1 - n])
  {
    if s == [] || !IsSpace(s[|s| - 1]) then 0 else 1 + TrailingSpaces(s[..|s| - 1])
  }

  /** str.strip(): drop leading and trailing whitespace. */
  function Strip(s: string): (r: string)
    ensures |r| <= |s|
    ensures r != [] ==> !IsSpace(r[0]) && !IsSpace(r[|r| - 1])
    ensures r == [] <==> forall i :: 0 <= i < |s| ==> IsSpace(s[i])
  {
    var a := LeadingSpaces(s);
    if a == |s| then []
    else
      var b := TrailingSpaces(s);
      assert !IsSpace(s[a]);
      s[a..|s| - b]
  }

  /** A string without surrounding whitespace is its own strip. */
  lemma StripOfTrimmed(s: string)
    requires s != [] ==> !IsSpace(s[0]) && !IsSpace(s[|s| - 1])
    ensures Strip(s) == s
  {
    if s != [] {
      assert LeadingSpaces(s) == 0;
      assert TrailingSpaces(s) == 0;
      assert s[0..|s|] == s;
    }
  }

  /** Stripping twice is stripping once. */
  lemma StripIdempotent(s: string)
    ensures Strip(Strip(s)) == Strip(s)
  {
    StripOfTrimmed(Strip(s));
  }

  function LowerChar(c: char): (d: char)
    ensures 'A' <= c <= 'Z' ==> d as int == c as int + 32
    ensures !('A' <= c <= 'Z') && !('А' <= c <= 'Я') && c != 'Ё' ==> d == c
  {
    if 'A' <= c <= 'Z' then (c as int + 32) as char
    else if 'А' <= c <= 'Я' then (c as int + 32) as char
    else if c == 'Ё' then 'ё'
    else c
  }

  function UpperChar(c: char): (d: char)
    ensures 'a' <= c <= 'z' ==> d as int == c as int - 32
    ensures !('a' <= c <= 'z') && !('а' <= c <= 'я') && c != 'ё' ==> d == c
  {
    if 'a' <= c <= 'z' then (c as int - 32) as char
    else if 'а' <= c <= 'я' then (c as int - 32) as char
    else if c == 'ё' then 'Ё'
    else c
  }

  /** str.lower() for Latin and Russian Cyrillic letters; other characters are kept. */
  function Lower(s: string): (r: string)
    ensures |r| == |s| && forall i :: 0 <= i < |s| ==> r[i] == LowerChar(s[i])
  {
    seq(|s|, i requires 0 <= i < |s| => LowerChar(s[i]))
  }

  /** str.upper() for Latin and Russian Cyrillic letters; other characters are kept. */
  function Upper(s: string): (r: string)
    ensures |r| == |s| && forall i :: 0 <= i < |s| ==> r[i] == UpperChar(s[i])
  {
    seq(|s|, i requires 0 <= i < |s| => UpperChar(s[i]))
  }

  lemma IsSpaceLowerChar(c: char)
    ensures IsSpace(LowerChar(c)) == IsSpace(c)
  {
  }

  /** Length of the leading run of non-space characters. */
  function WordLength(s: string): (n: nat)
    ensures n <= |s|
    ensures forall i :: 0 <= i < n ==> !IsSpace(s[i])
    ensures n < |s| ==> IsSpace(s[n])
  {
    if s == [] || IsSpace(s[0]) then 0 else 1 + WordLength(s[1..])
  }

  /** str.split() with no argument: the maximal runs of non-whitespace characters. */
  function Words(s: string): (ws: seq<string>)
    ensures forall w :: w in ws ==> w != [] && forall i :: 0 <= i < |w| ==> !IsSpace(w[i])
    decreases |s|
  {
    var a := LeadingSpaces(s);
    if a == |s| then []
    else
      var t := s[a..];
      var n := WordLength(t);
      [t[..n]] + Words(t[n..])
  }

  lemma {:induction false} WordLengthOfWord(a: string, rest: string)
    requires forall i :: 0 <= i < |a| ==> !IsSpace(a[i])
    requires rest == [] || IsSpace(rest[0])
    ensures WordLength(a + rest) == |a|
  {
    if a != [] {
      assert (a + rest)[1..] == a[1..] + rest;
      WordLengthOfWord(a[1..], rest);
    } else {
      assert a + rest == rest;
    }
  }

  lemma WordsCons(w: string, rest: string)
    requires w != [] && forall i :: 0 <= i < |w| ==> !IsSpace(w[i])
    requires rest == [] || IsSpace(rest[0])
    ensures Words(w + rest) == [w] + Words(rest)
  {
    var s := w + rest;
    assert s[0] == w[0];
    assert LeadingSpaces(s) == 0;
    assert s[0..] == s;
    WordLengthOfWord(w, rest);
    assert s[..|w|] == w;
    assert s[|w|..] == rest;
  }

  lemma WordsSpaceCons(b: string)
    ensures Words(" " + b) == Words(b)
  {
    var s := " " + b;
    assert s[1..] == b;
    assert LeadingSpaces(s) == 1 + LeadingSpaces(b);
    var a := LeadingSpaces(b);
    if a < |b| {
      assert s[1 + a..] == b[a..];
    }
  }

  /** A word, a space and a word split into those two words. */
  lemma WordsOfTwo(a: string, b: string)
    requires a != [] && b != []
    requires forall i :: 0 <= i < |a| ==> !IsSpace(a[i])
    requires forall i :: 0 <= i < |b| ==> !IsSpace(b[i])
    ensures Words(a + " " + b) == [a, b]
  {
    var rest := " " + b;
    assert a + " " + b == a + rest;
    assert IsSpace(rest[0]);
    WordsCons(a, rest);
    assert Words(a + rest) == [a] + Words(rest);
    WordsSpaceCons(b);
    WordsOfOne(b);
    assert Words(rest) == [b];
  }

  lemma WordsOfOne(b: string)
    requires b != [] && forall i :: 0 <= i < |b| ==> !IsSpace(b[i])
    ensures Words(b) == [b]
  {
    WordsCons(b, []);
    assert b + [] == b;
  }

  /** The first word of `s` (split()[0]); None where Python raises IndexError. */
  function FirstWord(s: string): Option<string>
    decreases |s|
  {
    if s == [] then None
    else if IsSpace(s[0]) then FirstWord(s[1..])
    else Some(s[..WordLength(s)])
  }

  /** A leading space does not change the words. */
  lemma WordsSkipSpace(s: string)
    requires s != [] && IsSpace(s[0])
    ensures Words(s) == Words(s[1..])
  {
    var a, a' := LeadingSpaces(s), LeadingSpaces(s[1..]);
    assert a == 1 + a';
    if a < |s| {
      assert s[a..] == s[1..][a'..];
    }
  }

  /** FirstWord is the head of split(). */
  lemma {:induction false} FirstWordOfWords(s: string)
    ensures FirstWord(s) == if Words(s) == [] then None else Some(Words(s)[0])
    decreases |s|
  {
    if s != [] {
      if IsSpace(s[0]) {
        WordsSkipSpace(s);
        FirstWordOfWords(s[1..]);
      } else {
        assert LeadingSpaces(s) == 0;
        assert s[0..] == s;
      }
    }
  }

  lemma {:induction false} WordsOfSpaces(sp: string)
    requires forall i :: 0 <= i < |sp| ==> IsSpace(sp[i])
    ensures Words(sp) == []
  {
    LeadingOfSpaces(sp);
  }

  lemma {:induction false} LeadingOfSpaces(sp: string)
    requires forall i :: 0 <= i < |sp| ==> IsSpace(sp[i])
    ensures LeadingSpaces(sp) == |sp|
  {
    if sp != [] {
      LeadingOfSpaces(sp[1..]);
    }
  }

  lemma {:induction false} WordLengthAppendSpaces(u: string, sp: string)
    requires forall i :: 0 <= i < |sp| ==> IsSpace(sp[i])
    ensures WordLength(u + sp) == WordLength(u)
  {
    if u == [] {
      assert u + sp == sp;
    } else if !IsSpace(u[0]) {
      assert (u + sp)[1..] == u[1..] + sp;
      WordLengthAppendSpaces(u[1..], sp);
    }
  }

  /** Trailing spaces do not change the words. */
  lemma {:induction false} WordsAppendSpaces(u: string, sp: string)
    requires forall i :: 0 <= i < |sp| ==> IsSpace(sp[i])
    ensures Words(u + sp) == Words(u)
    decreases |u|
  {
    if u == [] {
      assert u + sp == sp;
      WordsOfSpaces(sp);
    } else if IsSpace(u[0]) {
      WordsSkipSpace(u + sp);
      WordsSkipSpace(u);
      assert (u + sp)[1..] == u[1..] + sp;
      WordsAppendSpaces(u[1..], sp);
    } else {
      var t := u + sp;
      assert LeadingSpaces(t) == 0 && LeadingSpaces(u) == 0;
      assert t[0..] == t && u[0..] == u;
      WordLengthAppendSpaces(u, sp);
      var n := WordLength(u);
      assert t[..n] == u[..n];
      assert t[n..] == u[n..] + sp;
      WordsAppendSpaces(u[n..], sp);
    }
  }

  lemma {:induction false} WordsDropLeading(s: string, k: nat)
    requires k <= |s| && forall i :: 0 <= i < k ==> IsSpace(s[i])
    ensures Words(s[k..]) == Words(s)
    decreases k
  {
    if k > 0 {
      WordsDropLeading(s, k - 1);
      WordsSkipSpace(s[k - 1..]);
      assert s[k - 1..][1..] == s[k..];
    } else {
      assert s[0..] == s;
    }
  }

  /** split() ignores surrounding whitespace: splitting the stripped string gives the same
      words. */
  lemma WordsOfStrip(s: string)
    ensures Words(Strip(s)) == Words(s)
  {
    var a := LeadingSpaces(s);
    WordsDropLeading(s, a);
    if a < |s| {
      var u, sp := StripSplit(s);
      WordsAppendSpaces(u, sp);
    }
  }

  /** The text after the leading spaces is the stripped text followed by spaces. */
  lemma StripSplit(s: string) returns (u: string, sp: string)
    requires LeadingSpaces(s) < |s|
    ensures Strip(s) == u && s[LeadingSpaces(s)..] == u + sp
    ensures forall i :: 0 <= i < |sp| ==> IsSpace(sp[i])
  {
    var a, b := LeadingSpaces(s), TrailingSpaces(s);
    assert !IsSpace(s[a]);
    assert a <= |s| - b;
    u, sp := s[a..|s| - b], s[|s| - b..];
    assert Strip(s) == u;
    assert s[a..] == u + sp;
    forall i | 0 <= i < |sp| ensures IsSpace(sp[i]) {
      assert sp[i] == s[|s| - b + i];
    }
  }

  /** A stripped string is empty exactly when it has no words. */
  lemma StripEmptyNoWords(s: string)
    ensures Strip(s) == [] <==> Words(Strip(s)) == []
  {
    var t := Strip(s);
    if t != [] {
      assert LeadingSpaces(t) == 0;
    }
  }

  /** s.split(sep) for a one-character separator: never empty, pieces carry no separator. */
  function SplitOn(s: string, sep: char): (parts: seq<string>)
    ensures |parts| >= 1
    ensures forall p :: p in parts ==> sep !in p
    ensures sep !in s ==> parts == [s]
    decreases |s|
  {
    if sep !in s then [s]
    else
      var i := IndexOf(s, sep);
      [s[..i]] + SplitOn(s[i + 1..], sep)
  }

  function IndexOf(s: string, c: char): (i: nat)
    requires c in s
    ensures i < |s| && s[i] == c && c !in s[..i]
  {
    if s[0] == c then 0 else 1 + IndexOf(s[1..], c)
  }

  /** Joining the pieces of SplitOn with the separator gives back the string. */
  function Join(parts: seq<string>, sep: char): string
    requires |parts| >= 1
  {
    if |parts| == 1 then parts[0] else parts[0] + [sep] + Join(parts[1..], sep)
  }

  lemma JoinCons(p: string, rest: seq<string>, sep: char)
    requires |rest| >= 1
    ensures Join([p] + rest, sep) == p + [sep] + Join(rest, sep)
  {
    assert ([p] + rest)[1..] == rest;
  }

  lemma Around(s: string, i: nat)
    requires i < |s|
    ensures s == s[..i] + [s[i]] + s[i + 1..]
  {
  }

  lemma {:induction false} SplitJoin(s: string, sep: char)
    ensures Join(SplitOn(s, sep), sep) == s
    decreases |s|
  {
    if sep in s {
      var i := IndexOf(s, sep);
      var t := s[i + 1..];
      var rest := SplitOn(t, sep);
      assert SplitOn(s, sep) == [s[..i]] + rest;
      SplitJoin(t, sep);
      JoinCons(s[..i], rest, sep);
      Around(s, i);
    }
  }

  /** Splitting a piece, the separator, and the rest gives the piece followed by the rest's pieces. */
  lemma SplitOnConcat(a: string, sep: char, b: string)
    requires sep !in a
    ensures SplitOn(a + [sep] + b, sep) == [a] + SplitOn(b, sep)
  {
    var s := a + [sep] + b;
    assert s[|a|] == sep;
    var i := IndexOf(s, sep);
    assert s[..|a|] == a;
    assert i == |a|;
    assert s[..i] == a;
    assert s[i + 1..] == b;
  }

  lemma SplitOnThree(a: string, b: string, c: string, sep: char)
    requires sep !in a && sep !in b && sep !in c
    ensures SplitOn(a + [sep] + b + [sep] + c, sep) == [a, b, c]
  {
    var rest := b + [sep] + c;
    assert a + [sep] + b + [sep] + c == a + [sep] + rest;
    SplitOnConcat(a, sep, rest);
    SplitOnConcat(b, sep, c);
    SplitOnSingle(c, sep);
  }

  lemma SplitOnSingle(c: string, sep: char)
    requires sep !in c
    ensures SplitOn(c, sep) == [c]
  {
  }

  function DigitValue(c: char): nat
    requires IsDigit(c)
  {
    c as int - '0' as int
  }

  /** int(s) for a string of decimal digits. */
  function DigitsToNat(s: string): nat
    requires forall i :: 0 <= i < |s| ==> IsDigit(s[i])
  {
    if s == [] then 0 else DigitsToNat(s[..|s| - 1]) * 10 + DigitValue(s[|s| - 1])
  }

  function DigitChar(d: nat): (c: char)
    requires d < 10
    ensures IsDigit(c) && DigitValue(c) == d
  {
    ('0' as int + d) as char
  }

  /** str(n) for a natural number. */
  function NatToString(n: nat): (s: string)
    ensures IsDigits(s)
    ensures n < 10 <==> |s| == 1
    ensures n >= 10 ==> |s| >= 2
    ensures n < 100 ==> |s| <= 2
    ensures n < 10000 ==> |s| <= 4
    ensures n >= 1000 ==> |s| >= 4
  {
    if n < 10 then [DigitChar(n)] else NatToString(n / 10) + [DigitChar(n % 10)]
  }

  /** int(str(n)) == n. */
  lemma {:induction false} NatToStringRoundTrip(n: nat)
    ensures DigitsToNat(NatToString(n)) == n
  {
    if n >= 10 {
      NatToStringRoundTrip(n / 10);
      var s := NatToString(n);
      assert s[..|s| - 1] == NatToString(n / 10);
    } else {
      assert NatToString(n)[..0] == [];
    }
  }

  /** str(i) for any integer, with a leading '-' for negatives. */
  function IntToString(i: int): (s: string)
    ensures s != []
    ensures i >= 0 ==> s == NatToString(i)
  {
    if i < 0 then "-" + NatToString(-i) else NatToString(i)
  }

  /** The decimal text of an integer holds only digits and a leading minus. */
  lemma IntToStringChars(n: int)
    ensures forall i :: 0 <= i < |IntToString(n)| ==> IntToString(n)[i] == '-' || IsDigit(IntToString(n)[i])
  {
    var t := IntToString(n);
    if n < 0 {
      var u := NatToString(-n);
      assert t == "-" + u;
      assert forall i :: 0 <= i < |u| ==> IsDigit(u[i]);
    } else {
      assert forall i :: 0 <= i < |t| ==> IsDigit(t[i]);
    }
  }

  /** s.zfill(width) for a string without sign: left-pad with '0'. */
  function ZFill(s: string, width: nat): (r: string)
    ensures |r| == if |s| >= width then |s| else width
    ensures r[|r| - |s|..] == s
    ensures forall i :: 0 <= i < |r| - |s| ==> r[i] == '0'
    decreases width
  {
    if |s| >= width then s else "0" + ZFill(s, width - 1)
  }

  lemma ZFillDigits(s: string, width: nat)
    requires IsDigits(s)
    ensures IsDigits(ZFill(s, width))
  {
    var r := ZFill(s, width);
    forall i | 0 <= i < |r| ensures IsDigit(r[i]) {
      if i >= |r| - |s| { assert r[i] == r[|r| - |s|..][i - (|r| - |s|)]; }
    }
  }

  /** Python's `s.startswith(prefix)`. */
  predicate StartsWith(s: string, prefix: string) {
    |prefix| <= |s| && s[..|prefix|] == prefix
  }

  /** `sub` occurs as a contiguous part of `s` (Python's `sub in s`). */
  predicate Contains(s: string, sub: string)
    decreases |s|
  {
    StartsWith(s, sub) || (s != [] && Contains(s[1..], sub))
  }

  /** Python's `s.replace(pat, "")`: every non-overlapping occurrence, left to right, removed. */
  function RemoveAll(s: string, pat: string): (r: string)
    requires pat != []
    ensures |r| <= |s|
    decreases |s|
  {
    if s == [] then []
    else if StartsWith(s, pat) then RemoveAll(s[|pat|..], pat)
    else [s[0]] + RemoveAll(s[1..], pat)
  }

  /** A string without the pattern comes through the replacement unchanged. */
  lemma {:induction false} RemoveAllAbsent(s: string, pat: string)
    requires pat != [] && !Contains(s, pat)
    ensures RemoveAll(s, pat) == s
    decreases |s|
  {
    if s != [] {
      RemoveAllAbsent(s[1..], pat);
      assert s == [s[0]] + s[1..];
    }
  }

  /** Python's `<` on str: lexicographic by code point. */
  predicate StrLess(a: string, b: string)
    decreases |a|
  {
    if a == [] then b != []
    else if b == [] then false
    else if a[0] != b[0] then a[0] < b[0]
    else StrLess(a[1..], b[1..])
  }

  lemma {:induction false} StrLessIrreflexive(a: string)
    ensures !StrLess(a, a)
    decreases |a|
  {
    if a != [] { StrLessIrreflexive(a[1..]); }
  }

  lemma {:induction false} StrLessTrichotomy(a: string, b: string)
    ensures StrLess(a, b) || a == b || StrLess(b, a)
    ensures !(StrLess(a, b) && StrLess(b, a))
    decreases |a|
  {
    if a != [] && b != [] && a[0] == b[0] {
      StrLessTrichotomy(a[1..], b[1..]);
      if a[1..] == b[1..] { assert a == [a[0]] + a[1..]; assert b == [b[0]] + b[1..]; }
    }
  }

  lemma {:induction false} StrLessTransitive(a: string, b: string, c: string)
    requires StrLess(a, b) && StrLess(b, c)
    ensures StrLess(a, c)
    decreases |a|
  {
    if a != [] && b != [] && c != [] && a[0] == b[0] && b[0] == c[0] {
      StrLessTransitive(a[1..], b[1..], c[1..]);
    }
  }
}
