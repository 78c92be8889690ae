/** `extract_merchant_name` (main.rs, lines 241-245): the key the merchant ranking groups by. */
module Merchants {
  import opened Text

  /** `take(2)`: the longest prefix of at most two words. */
  function FirstTwo(ws: seq<string>): (r: seq<string>)
    ensures |r| <= 2 && |r| <= |ws| && r == ws[..|r|]
    ensures |r| < 2 ==> r == ws
  {
    if |ws| <= 2 then assert ws[..|ws|] == ws; ws else ws[..2]
  }

  /** The first two whitespace-separated words of the description, joined by one space and
      upper-cased. */
  function ExtractMerchantName(description: string): (merchant: string)
    ensures forall i :: 0 <= i < |merchant| ==> !IsLowerLetter(merchant[i])
  {
    Upper(JoinSpace(FirstTwo(Words(description))))
  }

  /** Every word, upper-cased. */
  function UpperAll(ws: seq<string>): (us: seq<string>)
    ensures |us| == |ws|
  {
    seq(|ws|, k requires 0 <= k < |ws| => Upper(ws[k]))
  }

  lemma UpperKeepsWhitespace(c: char)
    ensures IsWhitespace(UpperChar(c)) <==> IsWhitespace(c)
  {
  }

  lemma UpperSlices(s: string, n: nat)
    requires n <= |s|
    ensures Upper(s)[..n] == Upper(s[..n]) && Upper(s)[n..] == Upper(s[n..])
  {
  }

  lemma {:induction false} WordLengthOfUpper(s: string)
    ensures WordLength(Upper(s)) == WordLength(s)
    decreases |s|
  {
    if s != [] {
      UpperKeepsWhitespace(s[0]);
      UpperSlices(s, 1);
      WordLengthOfUpper(s[1..]);
    }
  }

  /** Upper-casing a text upper-cases its words and keeps where they break. */
  lemma {:induction false} WordsOfUpper(s: string)
    ensures Words(Upper(s)) == UpperAll(Words(s))
    decreases |s|
  {
    if s != [] {
      var u := Upper(s);
      UpperKeepsWhitespace(s[0]);
      assert u[0] == UpperChar(s[0]);
      if IsWhitespace(s[0]) {
        UpperSlices(s, 1);
        WordsOfUpper(s[1..]);
        assert Words(u) == Words(u[1..]);
      } else {
        var n := WordLength(s);
        WordLengthOfUpper(s);
        UpperSlices(s, n);
        WordsOfUpper(s[n..]);
        assert Words(s) == [s[..n]] + Words(s[n..]);
        assert Words(u) == [u[..n]] + Words(u[n..]);
        UpperAllCons(s[..n], Words(s[n..]));
      }
    }
  }

  lemma UpperAllCons(w: string, ws: seq<string>)
    ensures UpperAll([w] + ws) == [Upper(w)] + UpperAll(ws)
  {
    var l, r := UpperAll([w] + ws), [Upper(w)] + UpperAll(ws);
    assert forall k :: 1 <= k < |l| ==> l[k] == Upper(ws[k - 1]) == r[k];
  }

  lemma {:induction false} UpperOfJoin(ws: seq<string>)
    ensures Upper(JoinSpace(ws)) == JoinSpace(UpperAll(ws))
  {
    if |ws| > 1 {
      UpperOfJoin(ws[1..]);
      UpperAppend(ws[0] + " ", JoinSpace(ws[1..]));
      UpperAppend(ws[0], " ");
      assert UpperAll(ws)[1..] == UpperAll(ws[1..]);
    }
  }

  lemma UpperIdempotent(s: string)
    ensures Upper(Upper(s)) == Upper(s)
  {
  }

  /** The merchant name is the first two words of the upper-cased description. */
  lemma MerchantOfUpper(description: string)
    ensures ExtractMerchantName(description) == JoinSpace(FirstTwo(Words(Upper(description))))
  {
    var ws := Words(description);
    WordsOfUpper(description);
    UpperOfJoin(FirstTwo(ws));
    assert UpperAll(FirstTwo(ws)) == FirstTwo(UpperAll(ws));
  }

  /** Descriptions that differ only in letter case name the same merchant. */
  lemma MerchantIgnoresCase(a: string, b: string)
    requires Upper(a) == Upper(b)
    ensures ExtractMerchantName(a) == ExtractMerchantName(b)
  {
    MerchantOfUpper(a);
    MerchantOfUpper(b);
  }

  /** The merchant name is empty exactly when the description is blank. */
  lemma MerchantEmpty(description: string)
    ensures ExtractMerchantName(description) == [] <==> AllWhitespace(description)
  {
    var ws := Words(description);
    WordsEmpty(description);
    if ws != [] {
      var j := JoinSpace(FirstTwo(ws));
      assert |j| >= |ws[0]| > 0;
    }
  }

  lemma UpperOfWord(w: string)
    requires IsWord(w)
    ensures IsWord(Upper(w))
  {
    forall i | 0 <= i < |w| ensures !IsWhitespace(Upper(w)[i]) {
      UpperKeepsWhitespace(w[i]);
    }
  }

  /** The merchant name is at most two words, the first words of the description in order and
      upper-cased, separated by single spaces. */
  lemma MerchantWords(description: string)
    ensures var merchant := ExtractMerchantName(description);
            && Words(merchant) == UpperAll(FirstTwo(Words(description)))
            && |Words(merchant)| <= 2
            && merchant == JoinSpace(Words(merchant))
  {
    var ws := FirstTwo(Words(description));
    UpperOfJoin(ws);
    forall k | 0 <= k < |ws| ensures IsWord(UpperAll(ws)[k]) {
      UpperOfWord(ws[k]);
    }
    WordsOfJoin(UpperAll(ws));
  }

  /** Of a description made of words, the merchant is the first two, whatever follows. */
  lemma MerchantOfWords(w0: string, w1: string, rest: seq<string>)
    requires IsWord(w0) && IsWord(w1)
    requires forall k :: 0 <= k < |rest| ==> IsWord(rest[k])
    ensures ExtractMerchantName(JoinSpace([w0, w1] + rest)) == Upper(w0 + " " + w1)
  {
    var ws := [w0, w1] + rest;
    forall k | 0 <= k < |ws| ensures IsWord(ws[k]) {
      if k >= 2 {
        assert ws[k] == rest[k - 2];
      }
    }
    WordsOfJoin(ws);
    assert ws[..2] == [w0, w1];
    assert FirstTwo(ws) == [w0, w1];
    assert [w0, w1][1..] == [w1];
    assert JoinSpace([w0, w1]) == w0 + " " + w1;
  }

  /** A one-word description is its own merchant name, upper-cased. */
  lemma MerchantOfWord(w: string)
    requires IsWord(w)
    ensures ExtractMerchantName(w) == Upper(w)
  {
    WordsOfJoin([w]);
  }
}
