/** The string operations the analyzer takes from Rust's standard library: whitespace, ASCII
    case mapping, substring search, trimming, suffix tests, path segments, whitespace splitting
    and decimal digits. */
module Text {

  /** Rust's `char::is_whitespace`: the characters with the Unicode White_Space property. */
  predicate IsWhitespace(c: char)
  {
    || ('\t' <= c <= '\r') || c == ' ' || c == '\U{0085}' || c == '\U{00A0}' || c == '\U{1680}'
    || ('\U{2000}' <= c <= '\U{200A}') || c == '\U{2028}' || c == '\U{2029}'
    || c == '\U{202F}' || c == '\U{205F}' || c == '\U{3000}'
  }

  predicate IsUpperLetter(c: char) { 'A' <= c <= 'Z' }

  predicate IsLowerLetter(c: char) { 'a' <= c <= 'z' }

  function LowerChar(c: char): (d: char)
    ensures !IsUpperLetter(d)
    ensures IsLowerLetter(d) <==> IsLowerLetter(c) || IsUpperLetter(c)
  {
    if IsUpperLetter(c) then (c as int + 32) as char else c
  }

  function UpperChar(c: char): (d: char)
    ensures !IsLowerLetter(d)
    ensures IsUpperLetter(d) <==> IsLowerLetter(c) || IsUpperLetter(c)
  {
    if IsLowerLetter(c) then (c as int - 32) as char else c
  }

  /** `to_lowercase` on the ASCII letters. */
  function Lower(s: string): (r: string)
    ensures |r| == |s|
    ensures forall i :: 0 <= i < |r| ==> !IsUpperLetter(r[i])
    ensures forall i :: 0 <= i < |s| ==>
              (!IsUpperLetter(s[i]) ==> r[i] == s[i]) &&
              (IsUpperLetter(s[i]) ==> IsLowerLetter(r[i]) && r[i] as int - 'a' as int == s[i] as int - 'A' as int)
  {
    seq(|s|, i requires 0 <= i < |s| => LowerChar(s[i]))
  }

  /** `to_uppercase` on the ASCII letters. */
  function Upper(s: string): (r: string)
    ensures |r| == |s|
    ensures forall i :: 0 <= i < |r| ==> !IsLowerLetter(r[i])
    ensures forall i :: 0 <= i < |s| ==>
              (!IsLowerLetter(s[i]) ==> r[i] == s[i]) &&
              (IsLowerLetter(s[i]) ==> IsUpperLetter(r[i]) && r[i] as int - 'A' as int == s[i] as int - 'a' as int)
  {
    seq(|s|, i requires 0 <= i < |s| => UpperChar(s[i]))
  }

  lemma LowerOfLower(s: string)
    ensures Lower(Lower(s)) == Lower(s)
  {
  }

  lemma LowerOfUpper(s: string)
    ensures Lower(Upper(s)) == Lower(s)
  {
    forall i | 0 <= i < |s| ensures Lower(Upper(s))[i] == Lower(s)[i] {
      var c := s[i];
      if IsLowerLetter(c) {
        assert UpperChar(c) as int == c as int - 32;
      } else if IsUpperLetter(c) {
        assert UpperChar(c) == c;
      }
    }
  }

  lemma UpperAppend(a: string, b: string)
    ensures Upper(a + b) == Upper(a) + Upper(b)
  {
    assert forall i :: 0 <= i < |a| ==> (a + b)[i] == a[i];
    assert forall i :: |a| <= i < |a| + |b| ==> (a + b)[i] == b[i - |a|];
  }

  predicate OccursAt(s: string, p: string, i: int)
  {
    0 <= i <= |s| - |p| && s[i..i + |p|] == p
  }

  /** `str::contains`: `p` occurs in `s` at some position. */
  predicate Contains(s: string, p: string)
  {
    exists i | 0 <= i <= |s| - |p| :: OccursAt(s, p, i)
  }

  /** A text holding `p` anywhere contains it. */
  lemma ContainsInside(a: string, p: string, b: string)
    ensures Contains(a + p + b, p)
  {
    assert (a + p + b)[|a|..|a| + |p|] == p;
    assert OccursAt(a + p + b, p, |a|);
  }

  /** `str::ends_with`. */
  predicate EndsWith(s: string, suffix: string)
  {
    |suffix| <= |s| && s[|s| - |suffix|..] == suffix
  }

  /** A text followed by `suffix` ends with it. */
  lemma EndsWithAppended(s: string, suffix: string)
    ensures EndsWith(s + suffix, suffix)
  {
    assert (s + suffix)[|s|..] == suffix;
  }

  predicate AllWhitespace(s: string)
  {
    forall i :: 0 <= i < |s| ==> IsWhitespace(s[i])
  }

  /** `trim_start`: drops the longest whitespace prefix. */
  function TrimStart(s: string): (r: string)
    ensures |r| <= |s| && r == s[|s| - |r|..]
    ensures r == [] || !IsWhitespace(r[0])
  {
    if s != [] && IsWhitespace(s[0]) then TrimStart(s[1..]) else s
  }

  /** `trim_end`: drops the longest whitespace suffix. */
  function TrimEnd(s: string): (r: string)
    ensures |r| <= |s| && r == s[..|r|]
    ensures r == [] || !IsWhitespace(r[|r| - 1])
  {
    if s != [] && IsWhitespace(s[|s| - 1]) then TrimEnd(s[..|s| - 1]) else s
  }

  /** What `trim_start` drops is whitespace. */
  lemma {:induction false} TrimStartDropsWhitespace(s: string)
    ensures AllWhitespace(s[..|s| - |TrimStart(s)|])
    decreases |s|
  {
    if s != [] && IsWhitespace(s[0]) {
      var n := |s| - |TrimStart(s)|;
      TrimStartDropsWhitespace(s[1..]);
      HeadSlices(s, n);
      AllWhitespaceAppend([s[0]], s[1..][..n - 1]);
    }
  }

  /** What `trim_end` drops is whitespace. */
  lemma {:induction false} TrimEndDropsWhitespace(s: string)
    ensures AllWhitespace(s[|TrimEnd(s)|..])
    decreases |s|
  {
    if s != [] && IsWhitespace(s[|s| - 1]) {
      var n := |TrimEnd(s)|;
      TrimEndDropsWhitespace(s[..|s| - 1]);
      LastSlices(s, n);
      AllWhitespaceAppend(s[..|s| - 1][n..], [s[|s| - 1]]);
    }
  }

  /** The slices of `s` around position `n`, seen from its tail. */
  lemma HeadSlices<T>(s: seq<T>, n: nat)
    requires 1 <= n <= |s|
    ensures s[1..][n - 1..] == s[n..] && s[..n] == [s[0]] + s[1..][..n - 1]
  {
  }

  /** The slices of `s` around position `n`, seen from all but its last element. */
  lemma LastSlices<T>(s: seq<T>, n: nat)
    requires 1 <= |s| && n <= |s| - 1
    ensures s[..|s| - 1][..n] == s[..n] && s[n..] == s[..|s| - 1][n..] + [s[|s| - 1]]
  {
  }

  lemma AllWhitespaceAppend(a: string, b: string)
    requires AllWhitespace(a) && AllWhitespace(b)
    ensures AllWhitespace(a + b)
  {
    assert forall i :: |a| <= i < |a + b| ==> (a + b)[i] == b[i - |a|];
  }

  /** `trim`: `trim_start` then `trim_end`. */
  function Trim(s: string): (r: string)
    ensures r == [] || (!IsWhitespace(r[0]) && !IsWhitespace(r[|r| - 1]))
  {
    TrimEnd(TrimStart(s))
  }

  /** Every character of the trimmed text is one of the input. */
  lemma TrimKeepsCharacters(s: string)
    ensures forall c :: c in Trim(s) ==> c in s
  {
    var t := TrimStart(s);
    var r := TrimEnd(t);
    var k := |s| - |t|;
    assert t == s[k..] && r == t[..|r|];
    forall c | c in r ensures c in s {
      var i :| 0 <= i < |r| && r[i] == c;
      assert r[i] == t[..|r|][i] == t[i];
      assert t[i] == s[k..][i] == s[k + i];
    }
  }

  /** Trimming only removes whitespace. With `t` the input without its leading whitespace and
      `r` that without its trailing whitespace (so `r` is `Trim(s)`), `r` is the slice of the
      input that starts where the leading whitespace ends, with nothing but whitespace on
      either side. */
  lemma TrimRemovesOnlyWhitespace(s: string, t: string, r: string)
    requires t == TrimStart(s) && r == TrimEnd(t)
    ensures r == Trim(s)
    ensures var i := |s| - |t|;
            && i + |r| <= |s| && r == s[i..i + |r|]
            && AllWhitespace(s[..i]) && AllWhitespace(s[i + |r|..])
  {
    TrimStartDropsWhitespace(s);
    TrimEndDropsWhitespace(t);
    MiddleSlice(s, t, r);
  }

  /** A prefix `r` of a suffix `t` of `s` is a slice of `s`, and what follows it in `t` is what
      follows it in `s`. */
  lemma MiddleSlice<T>(s: seq<T>, t: seq<T>, r: seq<T>)
    requires |t| <= |s| && t == s[|s| - |t|..]
    requires |r| <= |t| && r == t[..|r|]
    ensures r == s[|s| - |t|..|s| - |t| + |r|]
    ensures s[|s| - |t| + |r|..] == t[|r|..]
  {
  }

  /** A string with no whitespace at its ends is its own trim. */
  lemma TrimOfPlain(s: string)
    requires s == [] || (!IsWhitespace(s[0]) && !IsWhitespace(s[|s| - 1]))
    ensures Trim(s) == s
  {
    assert TrimStart(s) == s;
  }

  lemma TrimIdempotent(s: string)
    ensures Trim(Trim(s)) == Trim(s)
  {
  }

  lemma {:induction false} TrimStartOfPadded(w: string, s: string)
    requires AllWhitespace(w)
    ensures TrimStart(w + s) == TrimStart(s)
  {
    if w == [] {
      assert w + s == s;
    } else {
      assert (w + s)[1..] == w[1..] + s;
      TrimStartOfPadded(w[1..], s);
    }
  }

  lemma {:induction false} TrimEndOfPadded(s: string, w: string)
    requires AllWhitespace(w)
    ensures TrimEnd(s + w) == TrimEnd(s)
  {
    if w == [] {
      assert s + w == s;
    } else {
      assert (s + w)[..|s + w| - 1] == s + w[..|w| - 1];
      TrimEndOfPadded(s, w[..|w| - 1]);
    }
  }

  lemma {:induction false} TrimStartOfSuffixed(s: string, w: string)
    requires AllWhitespace(w)
    ensures AllWhitespace(s) ==> TrimStart(s + w) == []
    ensures !AllWhitespace(s) ==> TrimStart(s + w) == TrimStart(s) + w
  {
    if s == [] {
      assert s + w == w;
      TrimStartOfPadded(w, []);
      assert w + [] == w;
    } else if IsWhitespace(s[0]) {
      assert (s + w)[1..] == s[1..] + w;
      TrimStartOfSuffixed(s[1..], w);
      AllWhitespaceTail(s);
      assert TrimStart(s + w) == TrimStart(s[1..] + w);
      assert TrimStart(s) == TrimStart(s[1..]);
    } else {
      assert (s + w)[0] == s[0];
      assert TrimStart(s + w) == s + w;
    }
  }

  /** Past a leading whitespace character, a string is all whitespace exactly when its tail is. */
  lemma AllWhitespaceTail(s: string)
    requires s != [] && IsWhitespace(s[0])
    ensures AllWhitespace(s) <==> AllWhitespace(s[1..])
  {
    if AllWhitespace(s[1..]) {
      forall i | 0 < i < |s| ensures IsWhitespace(s[i]) {
        assert s[i] == s[1..][i - 1];
      }
    }
  }

  lemma TrimStartAllWhitespace(s: string)
    requires AllWhitespace(s)
    ensures TrimStart(s) == []
  {
    TrimStartOfSuffixed(s, []);
    assert s + [] == s;
  }

  /** Whitespace added at either end does not change the trimmed string. */
  lemma TrimOfPadded(w1: string, s: string, w2: string)
    requires AllWhitespace(w1) && AllWhitespace(w2)
    ensures Trim(w1 + s + w2) == Trim(s)
  {
    assert w1 + s + w2 == w1 + (s + w2);
    TrimStartOfPadded(w1, s + w2);
    var t := TrimStart(w1 + s + w2);
    assert t == TrimStart(s + w2);
    TrimStartOfSuffixed(s, w2);
    if AllWhitespace(s) {
      TrimStartAllWhitespace(s);
      assert t == [] && TrimStart(s) == [];
    } else {
      assert t == TrimStart(s) + w2;
      TrimEndOfPadded(TrimStart(s), w2);
    }
    assert Trim(w1 + s + w2) == TrimEnd(t);
  }

  /** The segment after the last '/', as `split('/').last()`: the longest suffix without '/'. */
  function LastSegment(path: string): (r: string)
    ensures '/' !in r
    ensures |r| <= |path| && r == path[|path| - |r|..]
    ensures |r| < |path| ==> path[|path| - |r| - 1] == '/'
  {
    if path == [] then []
    else if path[|path| - 1] == '/' then []
    else LastSegment(path[..|path| - 1]) + [path[|path| - 1]]
  }

  /** Length of the run of non-whitespace characters that `s` starts with. */
  function WordLength(s: string): (n: nat)
    ensures n <= |s|
    ensures forall i :: 0 <= i < n ==> !IsWhitespace(s[i])
    ensures n < |s| ==> IsWhitespace(s[n])
  {
    if s != [] && !IsWhitespace(s[0]) then 1 + WordLength(s[1..]) else 0
  }

  predicate IsWord(w: string)
  {
    w != [] && forall i :: 0 <= i < |w| ==> !IsWhitespace(w[i])
  }

  /** `split_whitespace`: the maximal runs of non-whitespace characters, in order. */
  function Words(s: string): (ws: seq<string>)
    ensures forall k :: 0 <= k < |ws| ==> IsWord(ws[k])
    decreases |s|
  {
    if s == [] then []
    else if IsWhitespace(s[0]) then Words(s[1..])
    else
      var n := WordLength(s);
      [s[..n]] + Words(s[n..])
  }

  /** Whitespace in front of a text does not change its words. */
  lemma {:induction false} WordsOfPadded(w: string, b: string)
    requires AllWhitespace(w)
    ensures Words(w + b) == Words(b)
    decreases |w|
  {
    if w == [] {
      assert w + b == b;
    } else {
      assert (w + b)[0] == w[0];
      assert (w + b)[1..] == w[1..] + b;
      assert forall i :: 0 <= i < |w[1..]| ==> w[1..][i] == w[i + 1];
      WordsOfPadded(w[1..], b);
    }
  }

  /** A run of non-whitespace that ends inside `a`, or where `c` begins with whitespace, is not
      lengthened by appending `c`. */
  lemma {:induction false} WordLengthOfAppend(a: string, c: string)
    requires WordLength(a) < |a| || (c != [] && IsWhitespace(c[0]))
    ensures WordLength(a + c) == WordLength(a)
    decreases |a|
  {
    if a == [] {
      assert a + c == c;
    } else if IsWhitespace(a[0]) {
      assert (a + c)[0] == a[0];
    } else {
      assert (a + c)[0] == a[0];
      assert (a + c)[1..] == a[1..] + c;
      WordLengthOfAppend(a[1..], c);
    }
  }

  /** Whitespace separates words: the words of `a`, some whitespace and `b` are the words of
      `a` followed by those of `b`. With WordsOfJoin on a single word, this fixes Words on every
      text. */
  lemma {:induction false} WordsSplit(a: string, w: string, b: string)
    requires w != [] && AllWhitespace(w)
    ensures Words(a + w + b) == Words(a) + Words(b)
    decreases |a|
  {
    if a == [] {
      assert a + w + b == w + b;
      WordsOfPadded(w, b);
    } else if IsWhitespace(a[0]) {
      AppendSlices(a, w, b, 1);
      WordsSplit(a[1..], w, b);
    } else {
      var n := WordLength(a);
      AppendSlices(a, w, b, n);
      assert (w + b)[0] == w[0];
      WordLengthOfAppend(a, w + b);
      WordsSplit(a[n..], w, b);
      assert Words(a) == [a[..n]] + Words(a[n..]);
    }
  }

  /** Slicing a three-part concatenation inside its first part. */
  lemma AppendSlices<T>(a: seq<T>, w: seq<T>, b: seq<T>, n: nat)
    requires 0 < n <= |a|
    ensures a + w + b == a + (w + b)
    ensures (a + w + b)[0] == a[0]
    ensures (a + w + b)[..n] == a[..n] && (a + w + b)[n..] == a[n..] + w + b
  {
  }

  /** `join(" ")`. */
  function JoinSpace(ws: seq<string>): string
  {
    if ws == [] then []
    else if |ws| == 1 then ws[0]
    else ws[0] + " " + JoinSpace(ws[1..])
  }

  function Concat(ws: seq<string>): string
  {
    if ws == [] then [] else ws[0] + Concat(ws[1..])
  }

  /** The characters of `s` that are not whitespace, in order. */
  function NonWhitespace(s: string): string
  {
    if s == [] then []
    else if IsWhitespace(s[0]) then NonWhitespace(s[1..])
    else [s[0]] + NonWhitespace(s[1..])
  }

  lemma {:induction false} NonWhitespaceAppend(a: string, b: string)
    ensures NonWhitespace(a + b) == NonWhitespace(a) + NonWhitespace(b)
  {
    if a != [] {
      assert (a + b)[1..] == a[1..] + b;
      NonWhitespaceAppend(a[1..], b);
    } else {
      assert a + b == b;
    }
  }

  lemma {:induction false} NonWhitespaceOfWord(w: string)
    requires forall i :: 0 <= i < |w| ==> !IsWhitespace(w[i])
    ensures NonWhitespace(w) == w
  {
    if w != [] {
      NonWhitespaceOfWord(w[1..]);
    }
  }

  /** The words, run together, are exactly the non-whitespace characters of `s`. */
  lemma {:induction false} WordsKeepCharacters(s: string)
    ensures Concat(Words(s)) == NonWhitespace(s)
    decreases |s|
  {
    if s == [] {
    } else if IsWhitespace(s[0]) {
      WordsKeepCharacters(s[1..]);
    } else {
      var n := WordLength(s);
      assert s == s[..n] + s[n..];
      NonWhitespaceAppend(s[..n], s[n..]);
      NonWhitespaceOfWord(s[..n]);
      WordsKeepCharacters(s[n..]);
      assert Words(s) == [s[..n]] + Words(s[n..]);
    }
  }

  /** There are no words exactly when every character is whitespace. */
  lemma {:induction false} WordsEmpty(s: string)
    ensures Words(s) == [] <==> AllWhitespace(s)
    decreases |s|
  {
    if s != [] && IsWhitespace(s[0]) {
      WordsEmpty(s[1..]);
      assert AllWhitespace(s) <==> AllWhitespace(s[1..]) by {
        if AllWhitespace(s[1..]) {
          forall i | 0 <= i < |s| ensures IsWhitespace(s[i]) {
            if i > 0 { assert s[i] == s[1..][i - 1]; }
          }
        }
      }
    }
  }

  lemma {:induction false} WordLengthOfWord(w: string, rest: string)
    requires IsWord(w)
    requires rest == [] || IsWhitespace(rest[0])
    ensures WordLength(w + rest) == |w|
    decreases |w|
  {
    if |w| > 1 {
      assert (w + rest)[1..] == w[1..] + rest;
      WordLengthOfWord(w[1..], rest);
    } else {
      assert (w + rest)[1..] == rest;
    }
  }

  /** Splitting a space-joined list of words gives the words back. */
  lemma {:induction false} WordsOfJoin(ws: seq<string>)
    requires forall k :: 0 <= k < |ws| ==> IsWord(ws[k])
    ensures Words(JoinSpace(ws)) == ws
  {
    if |ws| == 1 {
      var w := ws[0];
      WordLengthOfWord(w, []);
      assert w + [] == w;
      assert w[..|w|] == w;
      assert w[|w|..] == [];
    } else if |ws| > 1 {
      var w := ws[0];
      var s := JoinSpace(ws);
      var tail := " " + JoinSpace(ws[1..]);
      assert s == w + tail;
      WordLengthOfWord(w, tail);
      assert s[..|w|] == w;
      assert s[|w|..] == tail;
      assert tail[1..] == JoinSpace(ws[1..]);
      WordsOfJoin(ws[1..]);
    }
  }

  predicate IsDigit(c: char) { '0' <= c <= '9' }

  predicate AllDigits(s: string)
  {
    forall i :: 0 <= i < |s| ==> IsDigit(s[i])
  }

  function DigitChar(d: nat): (c: char)
    requires d < 10
    ensures IsDigit(c) && c as int - '0' as int == d
  {
    ('0' as int + d) as char
  }

  /** The decimal numeral of `n` without leading zeros, as Rust's `{}` formats an integer. */
  function NatToString(n: nat): (s: string)
    ensures |s| > 0 && AllDigits(s)
    ensures |s| > 1 ==> s[0] != '0'
  {
    if n < 10 then [DigitChar(n)] else NatToString(n / 10) + [DigitChar(n % 10)]
  }

  /** The value of a string of decimal digits. */
  function DigitsValue(s: string): nat
    requires AllDigits(s)
  {
    if s == [] then 0 else DigitsValue(s[..|s| - 1]) * 10 + (s[|s| - 1] as int - '0' as int)
  }

  lemma {:induction false} DigitsOfNat(n: nat)
    ensures DigitsValue(NatToString(n)) == n
  {
    if n >= 10 {
      var s := NatToString(n);
      assert s[..|s| - 1] == NatToString(n / 10);
      DigitsOfNat(n / 10);
    }
  }
}
