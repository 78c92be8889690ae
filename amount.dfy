/** `parse_amount` (main.rs, lines 123-135): strip currency decoration, then read a decimal. */
module Amount {
  import opened Wrappers
  import opened Text

  /** `str::replace` with a one-character pattern. */
  function ReplaceChar(s: string, c: char, rep: string): string
  {
    if s == [] then [] else (if s[0] == c then rep else [s[0]]) + ReplaceChar(s[1..], c, rep)
  }

  /** After a replacement every character is one of the input other than the replaced one, or
      one of the replacement. */
  lemma {:induction false} ReplaceCharKeeps(s: string, c: char, rep: string)
    ensures forall d :: d in ReplaceChar(s, c, rep) ==> (d in s && d != c) || d in rep
  {
    if s != [] {
      ReplaceCharKeeps(s[1..], c, rep);
      assert forall d :: d in s[1..] ==> d in s;
    }
  }

  lemma {:induction false} ReplaceAbsentChar(s: string, c: char, rep: string)
    requires c !in s
    ensures ReplaceChar(s, c, rep) == s
  {
    if s != [] {
      ReplaceAbsentChar(s[1..], c, rep);
    }
  }

  lemma {:induction false} ReplaceCharAppend(a: string, b: string, c: char, rep: string)
    ensures ReplaceChar(a + b, c, rep) == ReplaceChar(a, c, rep) + ReplaceChar(b, c, rep)
  {
    if a == [] {
      assert a + b == b;
    } else {
      assert (a + b)[1..] == a[1..] + b;
      ReplaceCharAppend(a[1..], b, c, rep);
    }
  }

  /** The four rewrites, in the source's order: drop '$', drop ',', '(' to '-', drop ')'. */
  function StripDecoration(s: string): string
  {
    ReplaceChar(ReplaceChar(ReplaceChar(ReplaceChar(s, '$', ""), ',', ""), '(', "-"), ')', "")
  }

  /** What the rewrites do to one character, taken alone. */
  function Undecorate(c: char): string
  {
    if c == '$' || c == ',' || c == ')' then "" else if c == '(' then "-" else [c]
  }

  /** The reference: rewrite each character on its own and run the pieces together. */
  function UndecorateAll(s: string): string
  {
    if s == [] then [] else Undecorate(s[0]) + UndecorateAll(s[1..])
  }

  function Count(s: string, c: char): nat
  {
    if s == [] then 0 else (if s[0] == c then 1 else 0) + Count(s[1..], c)
  }

  /** The four chained replaces act character by character: none of them introduces a
      character that a later one rewrites. */
  lemma {:induction false} StripIsPerCharacter(s: string)
    ensures StripDecoration(s) == UndecorateAll(s)
  {
    if s != [] {
      var h, t := [s[0]], s[1..];
      assert s == h + t;
      ReplaceCharAppend(h, t, '$', "");
      var a1, b1 := ReplaceChar(h, '$', ""), ReplaceChar(t, '$', "");
      ReplaceCharAppend(a1, b1, ',', "");
      var a2, b2 := ReplaceChar(a1, ',', ""), ReplaceChar(b1, ',', "");
      ReplaceCharAppend(a2, b2, '(', "-");
      var a3, b3 := ReplaceChar(a2, '(', "-"), ReplaceChar(b2, '(', "-");
      ReplaceCharAppend(a3, b3, ')', "");
      assert ReplaceChar(a3, ')', "") == Undecorate(s[0]);
      StripIsPerCharacter(t);
    }
  }

  lemma {:induction false} UndecorateCountsDashes(s: string)
    ensures Count(UndecorateAll(s), '-') == Count(s, '-') + Count(s, '(')
  {
    if s != [] {
      UndecorateCountsDashes(s[1..]);
      CountAppend(Undecorate(s[0]), UndecorateAll(s[1..]), '-');
    }
  }

  lemma {:induction false} CountAppend(a: string, b: string, c: char)
    ensures Count(a + b, c) == Count(a, c) + Count(b, c)
  {
    if a == [] {
      assert a + b == b;
    } else {
      assert (a + b)[1..] == a[1..] + b;
      CountAppend(a[1..], b, c);
    }
  }

  lemma {:induction false} TrimStartKeepsCount(s: string, c: char)
    requires !IsWhitespace(c)
    ensures Count(TrimStart(s), c) == Count(s, c)
  {
    if s != [] && IsWhitespace(s[0]) {
      TrimStartKeepsCount(s[1..], c);
    }
  }

  lemma {:induction false} TrimEndKeepsCount(s: string, c: char)
    requires !IsWhitespace(c)
    ensures Count(TrimEnd(s), c) == Count(s, c)
  {
    if s != [] && IsWhitespace(s[|s| - 1]) {
      var init := s[..|s| - 1];
      assert s == init + [s[|s| - 1]];
      CountAppend(init, [s[|s| - 1]], c);
      TrimEndKeepsCount(init, c);
    }
  }

  lemma StripRemovesDecoration(s: string)
    ensures var r := StripDecoration(s); '$' !in r && ',' !in r && '(' !in r && ')' !in r
  {
    var a := ReplaceChar(s, '$', "");
    var b := ReplaceChar(a, ',', "");
    var c := ReplaceChar(b, '(', "-");
    var d := ReplaceChar(c, ')', "");
    ReplaceCharKeeps(s, '$', "");
    ReplaceCharKeeps(a, ',', "");
    ReplaceCharKeeps(b, '(', "-");
    ReplaceCharKeeps(c, ')', "");
    assert '$' !in a;
    assert '$' !in b && ',' !in b;
    assert '$' !in c && ',' !in c && '(' !in c;
    assert '$' !in d && ',' !in d && '(' !in d && ')' !in d;
  }

  /** The cleaned token that `parse::<f64>` is given. */
  function CleanAmount(s: string): string
  {
    Trim(StripDecoration(s))
  }

  /** The cleaned token has no '$', ',', '(' or ')' and no whitespace at either end. */
  lemma CleanAmountIsClean(s: string)
    ensures var r := CleanAmount(s);
            && '$' !in r && ',' !in r && '(' !in r && ')' !in r
            && (r == [] || (!IsWhitespace(r[0]) && !IsWhitespace(r[|r| - 1])))
  {
    StripRemovesDecoration(s);
    TrimKeepsCharacters(StripDecoration(s));
  }

  /** Every '(' becomes a '-': the cleaned token has as many '-' as the raw token had '-' and
      '(' together. */
  lemma CleanTurnsParenthesesIntoMinus(s: string)
    ensures Count(CleanAmount(s), '-') == Count(s, '-') + Count(s, '(')
  {
    var t := StripDecoration(s);
    TrimStartKeepsCount(t, '-');
    TrimEndKeepsCount(TrimStart(t), '-');
    StripIsPerCharacter(s);
    UndecorateCountsDashes(s);
  }

  lemma CleanIdempotent(s: string)
    ensures CleanAmount(CleanAmount(s)) == CleanAmount(s)
  {
    var r := CleanAmount(s);
    CleanAmountIsClean(s);
    ReplaceAbsentChar(r, '$', "");
    ReplaceAbsentChar(r, ',', "");
    ReplaceAbsentChar(r, '(', "-");
    ReplaceAbsentChar(r, ')', "");
  }

  function LeadingDigits(s: string): (n: nat)
    ensures n <= |s| && AllDigits(s[..n])
    ensures n < |s| ==> !IsDigit(s[n])
  {
    if s != [] && IsDigit(s[0]) then
      var n := 1 + LeadingDigits(s[1..]);
      assert forall i :: 1 <= i < n ==> s[..n][i] == s[1..][..n - 1][i - 1];
      n
    else 0
  }

  /** The value of the digits after a decimal point: the first digit counts tenths, and the
      rest are worth a tenth of what they would be on their own. */
  function FractionValue(ds: string): real
    requires AllDigits(ds)
  {
    if ds == [] then 0.0 else ((ds[0] as int - '0' as int) as real + FractionValue(ds[1..])) / 10.0
  }

  /** Digits, optionally followed by '.' and more digits, with at least one digit in all. */
  function ParseUnsigned(s: string): Option<real>
  {
    var n := LeadingDigits(s);
    if n == |s| then
      if n > 0 then Some(DigitsValue(s) as real) else None
    else if s[n] == '.' && AllDigits(s[n + 1..]) && (n > 0 || n + 1 < |s|) then
      Some(DigitsValue(s[..n]) as real + FractionValue(s[n + 1..]))
    else None
  }

  /** The decimal subset of `f64::from_str`: an optional sign, then an unsigned decimal. */
  function ParseDecimal(s: string): Option<real>
  {
    if s != [] && (s[0] == '-' || s[0] == '+') then
      match ParseUnsigned(s[1..])
      case None => None
      case Some(v) => Some(if s[0] == '-' then -v else v)
    else ParseUnsigned(s)
  }

  /** `parse_amount`: `()` as error is Rust's boxed parse error. */
  function ParseAmount(s: string): Result<real, ()>
  {
    match ParseDecimal(CleanAmount(s))
    case Some(v) => Ok(v)
    case None => Err(())
  }

  /** An amount written with two decimals, `-` for negatives: the reference for ParseDecimal. */
  function CentsText(cents: int): string
  {
    (if cents < 0 then "-" else "") + UnsignedCents(if cents < 0 then -cents else cents)
  }

  /** `m` hundredths written as whole units, '.', and two fraction digits. */
  function UnsignedCents(m: nat): string
  {
    NatToString(m / 100) + "." + [DigitChar(m % 100 / 10), DigitChar(m % 100 % 10)]
  }

  lemma LeadingDigitsOfNumeral(ds: string, rest: string)
    requires AllDigits(ds)
    requires rest != [] && !IsDigit(rest[0])
    ensures LeadingDigits(ds + rest) == |ds|
    decreases |ds|
  {
    if ds != [] {
      assert (ds + rest)[1..] == ds[1..] + rest;
      LeadingDigitsOfNumeral(ds[1..], rest);
    } else {
      assert ds + rest == rest;
    }
  }

  lemma ParseTwoDecimals(q: nat, f: nat)
    requires f < 100
    ensures ParseUnsigned(NatToString(q) + "." + [DigitChar(f / 10), DigitChar(f % 10)])
            == Some(q as real + f as real / 100.0)
  {
    var ds := NatToString(q);
    var frac := [DigitChar(f / 10), DigitChar(f % 10)];
    var u := ds + "." + frac;
    LeadingDigitsOfNumeral(ds, "." + frac);
    assert ds + "." + frac == ds + ("." + frac);
    assert u[..|ds|] == ds;
    assert u[|ds| + 1..] == frac;
    assert u[|ds|] == '.';
    DigitsOfNat(q);
    assert LeadingDigits(u) == |ds|;
    var d1, d2 := f / 10, f % 10;
    assert frac[1..] == [DigitChar(d2)] && frac[1..][1..] == [];
    assert frac[0] as int - '0' as int == d1 && frac[1] as int - '0' as int == d2;
    assert FractionValue(frac[1..]) == d2 as real / 10.0;
    assert FractionValue(frac) == (d1 as real + d2 as real / 10.0) / 10.0;
    assert f == d1 * 10 + d2;
    assert FractionValue(frac) == f as real / 100.0;
  }

  /** Reading back an amount written in cents gives the exact amount. */
  lemma ParseCentsText(cents: int)
    ensures ParseDecimal(CentsText(cents)) == Some(cents as real / 100.0)
  {
    if cents < 0 {
      var u, v := UnsignedCents(-cents), (-cents) as real / 100.0;
      ParseUnsignedCents(-cents, v);
      assert CentsText(cents) == "-" + u;
      ParseMinus(u, v);
    } else {
      ParseUnsignedCents(cents, cents as real / 100.0);
      assert CentsText(cents) == UnsignedCents(cents);
    }
  }

  /** A '-' in front of an unsigned decimal negates it. */
  lemma ParseMinus(u: string, v: real)
    requires u != [] && u[0] != '-' && u[0] != '+' && ParseDecimal(u) == Some(v)
    ensures ParseDecimal("-" + u) == Some(-v)
  {
    ParseNegated(u);
  }

  /** The unsigned part of CentsText reads back as the amount it was written for. */
  lemma ParseUnsignedCents(m: nat, v: real)
    requires v == m as real / 100.0
    ensures UnsignedCents(m) != [] && IsDigit(UnsignedCents(m)[0])
    ensures ParseDecimal(UnsignedCents(m)) == Some(v)
  {
    var q, f := m / 100, m % 100;
    var ds := NatToString(q);
    var u := UnsignedCents(m);
    ParseTwoDecimals(q, f);
    CentsValue(m);
    DigitsOfNat(q);
    assert u[0] == ds[0];
    assert ParseDecimal(u) == ParseUnsigned(u);
  }

  lemma CentsValue(m: nat)
    ensures (m as real) / 100.0 == (m / 100) as real + (m % 100) as real / 100.0
  {
    assert m == m / 100 * 100 + m % 100;
  }

  /** A token without decoration and with no whitespace at its ends is already clean. */
  lemma CleanOfPlain(s: string)
    requires '$' !in s && ',' !in s && '(' !in s && ')' !in s
    requires s == [] || (!IsWhitespace(s[0]) && !IsWhitespace(s[|s| - 1]))
    ensures CleanAmount(s) == s
  {
    ReplaceAbsentChar(s, '$', "");
    ReplaceAbsentChar(s, ',', "");
    ReplaceAbsentChar(s, '(', "-");
    ReplaceAbsentChar(s, ')', "");
    assert TrimStart(s) == s;
  }

  lemma CentsTextIsPlain(cents: int)
    ensures var t := CentsText(cents);
            && '$' !in t && ',' !in t && '(' !in t && ')' !in t
            && (cents >= 0 ==> '-' !in t && IsDigit(t[0]))
            && t != [] && !IsWhitespace(t[0]) && !IsWhitespace(t[|t| - 1])
  {
    var m := if cents < 0 then -cents else cents;
    var u := UnsignedCents(m);
    UnsignedCentsIsPlain(m);
    if cents < 0 {
      var t := "-" + u;
      assert CentsText(cents) == t;
      assert forall i :: 0 < i < |t| ==> t[i] == u[i - 1];
    } else {
      assert CentsText(cents) == u;
    }
  }

  /** The unsigned part of CentsText is digits and one '.', beginning and ending with a digit. */
  lemma UnsignedCentsIsPlain(m: nat)
    ensures var u := UnsignedCents(m);
            && (forall i :: 0 <= i < |u| ==> IsDigit(u[i]) || u[i] == '.')
            && u != [] && IsDigit(u[0]) && IsDigit(u[|u| - 1])
  {
    var ds := NatToString(m / 100);
    var u := UnsignedCents(m);
    DigitsOfNat(m / 100);
    forall i | 0 <= i < |u|
      ensures IsDigit(u[i]) || u[i] == '.'
    {
      if i < |ds| {
        assert u[i] == ds[i];
      }
    }
    assert u[0] == ds[0];
  }

  /** An amount written in cents is read back exactly. */
  lemma ParseAmountOfCents(cents: int)
    ensures ParseAmount(CentsText(cents)) == Ok(cents as real / 100.0)
  {
    CentsTextIsPlain(cents);
    CleanOfPlain(CentsText(cents));
    ParseCentsText(cents);
  }

  /** A plain unsigned token in parentheses reads as its negation. */
  lemma ParseNegatedToken(t: string, v: real)
    requires '$' !in t && ',' !in t && '(' !in t && ')' !in t
    requires t != [] && t[0] != '-' && t[0] != '+' && !IsWhitespace(t[|t| - 1])
    requires ParseDecimal(t) == Some(v)
    ensures ParseAmount("(" + t + ")") == Ok(-v)
  {
    CleanParenthesised(t);
    ParseNegated(t);
  }

  /** A plain token in parentheses is cleaned to the token with a '-' in front. */
  lemma CleanParenthesised(t: string)
    requires '$' !in t && ',' !in t && '(' !in t && ')' !in t
    requires t == [] || !IsWhitespace(t[|t| - 1])
    ensures CleanAmount("(" + t + ")") == "-" + t
  {
    var u := "-" + t;
    StripParenthesised(t);
    assert CleanAmount("(" + t + ")") == Trim(u);
    TrimOfPlain(u);
  }

  lemma StripParenthesised(t: string)
    requires '$' !in t && ',' !in t && '(' !in t && ')' !in t
    ensures StripDecoration("(" + t + ")") == "-" + t
  {
    var s := "(" + t + ")";
    StripIsPerCharacter(s);
    UndecorateAllAppend("(" + t, ")");
    UndecorateAllAppend("(", t);
    UndecorateAllOfPlain(t);
    assert UndecorateAll("(") == "-" by {
      assert "("[1..] == [];
    }
    assert UndecorateAll(")") == "" by {
      assert ")"[1..] == [];
    }
    assert "-" + t + "" == "-" + t;
  }

  lemma ParseNegated(t: string)
    requires t != [] && t[0] != '-' && t[0] != '+'
    ensures ParseDecimal("-" + t) == match ParseDecimal(t) case None => None case Some(v) => Some(-v)
  {
    assert ("-" + t)[1..] == t;
  }

  lemma {:induction false} UndecorateAllAppend(a: string, b: string)
    ensures UndecorateAll(a + b) == UndecorateAll(a) + UndecorateAll(b)
  {
    if a == [] {
      assert a + b == b;
    } else {
      assert (a + b)[1..] == a[1..] + b;
      UndecorateAllAppend(a[1..], b);
    }
  }

  lemma {:induction false} UndecorateAllOfPlain(s: string)
    requires '$' !in s && ',' !in s && '(' !in s && ')' !in s
    ensures UndecorateAll(s) == s
  {
    if s != [] {
      UndecorateAllOfPlain(s[1..]);
    }
  }

  /** A '$' or ',' anywhere in the raw token makes no difference to the cleaned token. */
  lemma CleanIgnoresDecoration(a: string, b: string, d: char)
    requires d == '$' || d == ','
    ensures CleanAmount(a + [d] + b) == CleanAmount(a + b)
  {
    var s, t := a + [d] + b, a + b;
    StripIsPerCharacter(s);
    StripIsPerCharacter(t);
    UndecorateAllAppend(a + [d], b);
    UndecorateAllAppend(a, [d]);
    UndecorateAllAppend(a, b);
    assert UndecorateAll([d]) == [] by {
      assert [d][1..] == [];
    }
    assert UndecorateAll(a) + [] == UndecorateAll(a);
    assert StripDecoration(s) == StripDecoration(t);
  }

  /** Whitespace around the raw token makes no difference to the cleaned token. */
  lemma CleanIgnoresPadding(w1: string, s: string, w2: string)
    requires AllWhitespace(w1) && AllWhitespace(w2)
    ensures CleanAmount(w1 + s + w2) == CleanAmount(s)
  {
    StripIsPerCharacter(w1 + s + w2);
    StripIsPerCharacter(s);
    UndecorateAllAppend(w1 + s, w2);
    UndecorateAllAppend(w1, s);
    UndecorateAllOfPlain(w1);
    UndecorateAllOfPlain(w2);
    TrimOfPadded(w1, StripDecoration(s), w2);
  }

  /** Only digits, one '.', and a sign in front, are accepted. */
  lemma ParsedTokenShape(s: string)
    requires ParseDecimal(s).Some?
    ensures forall i :: 0 <= i < |s| ==>
              IsDigit(s[i]) || s[i] == '.' || (i == 0 && (s[i] == '-' || s[i] == '+'))
  {
    if s != [] && (s[0] == '-' || s[0] == '+') {
      UnsignedShape(s[1..]);
      forall i | 1 <= i < |s| ensures IsDigit(s[i]) || s[i] == '.' {
        assert s[i] == s[1..][i - 1];
      }
    } else {
      UnsignedShape(s);
    }
  }

  lemma UnsignedShape(s: string)
    requires ParseUnsigned(s).Some?
    ensures forall i :: 0 <= i < |s| ==> IsDigit(s[i]) || s[i] == '.'
  {
    var n := LeadingDigits(s);
    forall i | 0 <= i < |s| ensures IsDigit(s[i]) || s[i] == '.' {
      if i < n {
        assert s[i] == s[..n][i];
      } else if i > n {
        assert s[i] == s[n + 1..][i - n - 1];
      }
    }
  }

  /** So a token with a letter left in it after cleaning, such as "abc", fails. */
  lemma LettersFail(s: string)
    requires exists i :: 0 <= i < |CleanAmount(s)| && (IsLowerLetter(CleanAmount(s)[i]) || IsUpperLetter(CleanAmount(s)[i]))
    ensures ParseAmount(s).Err?
  {
    if ParseDecimal(CleanAmount(s)).Some? {
      ParsedTokenShape(CleanAmount(s));
    }
  }
}
