/**
 * The random name and e-mail generator. Every random choice (Math.random) is a
 * parameter: a draw index that the caller supplies within the range the source's
 * `Math.floor(Math.random() * n)` can produce.
 */
module Names {

  const Vowels: string := "aeiou"
  const Consonants: string := "bcdfghjklmnpqrstvwxyz"
  const UpperConsonants: string := "BCDFGHJKLMNPQRSTVWXYZ"
  const Domains: seq<string> := ["gmail.com", "yahoo.com", "outlook.com", "hotmail.com", "protonmail.com"]

  predicate IsLower(c: char) { 'a' <= c <= 'z' }
  predicate IsUpper(c: char) { 'A' <= c <= 'Z' }
  predicate IsDigit(c: char) { '0' <= c <= '9' }

  /** toUpperCase on one character (only ASCII letters ever reach it). */
  function UpperAscii(c: char): char {
    if IsLower(c) then (c as int - 32) as char else c
  }

  /** toLowerCase on one character (only ASCII letters ever reach it). */
  function LowerAscii(c: char): char {
    if IsUpper(c) then (c as int + 32) as char else c
  }

  /** String.prototype.toLowerCase on an ASCII string. */
  function Lowered(s: string): (r: string)
    ensures |r| == |s| && forall i :: 0 <= i < |s| ==> r[i] == LowerAscii(s[i])
  {
    seq(|s|, i requires 0 <= i < |s| => LowerAscii(s[i]))
  }

  /** The letters position i of a name is drawn from: consonants at even positions, vowels at odd ones. */
  function Alphabet(i: nat): string {
    if i % 2 == 0 then Consonants else Vowels
  }

  /** One draw per letter, each within its alphabet. */
  predicate ValidDraws(draws: seq<nat>) {
    forall i :: 0 <= i < |draws| ==> draws[i] < |Alphabet(i)|
  }

  /** The letters the loop of generateRandomName appends, before capitalisation. */
  function RawName(draws: seq<nat>): (r: string)
    requires ValidDraws(draws)
    ensures |r| == |draws|
    ensures forall i :: 0 <= i < |r| ==> r[i] == Alphabet(i)[draws[i]]
  {
    seq(|draws|, i requires 0 <= i < |draws| => Alphabet(i)[draws[i]])
  }

  /** The string with its first character upper-cased and the rest kept. */
  function Capitalized(s: string): (r: string)
    ensures |r| == |s|
    ensures |s| > 0 ==> r[0] == UpperAscii(s[0]) && r[1..] == s[1..]
  {
    if |s| == 0 then s else [UpperAscii(s[0])] + s[1..]
  }

  /** The value generateRandomName returns for these draws. */
  function RandomName(draws: seq<nat>): (r: string)
    requires ValidDraws(draws)
    ensures |r| == |draws|
    // the first letter is the drawn consonant, capitalised; the others are the drawn letters
    ensures |r| > 0 ==> r[0] == UpperAscii(Consonants[draws[0]])
    ensures forall i :: 1 <= i < |r| ==> r[i] == Alphabet(i)[draws[i]]
  {
    Capitalized(RawName(draws))
  }

  /** A generated name: an upper-case consonant, then lower-case letters alternating vowel and consonant. */
  predicate NameShape(name: string) {
    && (|name| > 0 ==> IsUpper(name[0]) && name[0] in UpperConsonants)
    && (forall i :: 1 <= i < |name| ==> name[i] in Alphabet(i) && IsLower(name[i]))
  }

  lemma AlphabetLetters(i: nat, d: nat)
    requires d < |Alphabet(i)|
    ensures IsLower(Alphabet(i)[d])
    ensures i % 2 == 0 ==> UpperAscii(Alphabet(i)[d]) == UpperConsonants[d]
  {
  }

  /** Every generated name has the generator's shape and the requested length. */
  lemma RandomNameShape(draws: seq<nat>)
    requires ValidDraws(draws)
    ensures |RandomName(draws)| == |draws| && NameShape(RandomName(draws))
  {
    var name := RandomName(draws);
    if |draws| > 0 {
      AlphabetLetters(0, draws[0]);
      assert name[0] == UpperConsonants[draws[0]];
    }
    forall i | 1 <= i < |name|
      ensures name[i] in Alphabet(i) && IsLower(name[i])
    {
      AlphabetLetters(i, draws[i]);
    }
  }

  /** Lower-casing a generated name gives back the letters as drawn. */
  lemma LoweredRandomName(draws: seq<nat>)
    requires ValidDraws(draws)
    ensures Lowered(RandomName(draws)) == RawName(draws)
  {
    var raw := RawName(draws);
    var low := Lowered(RandomName(draws));
    forall i | 0 <= i < |raw|
      ensures low[i] == raw[i]
    {
      AlphabetLetters(i, draws[i]);
    }
  }

  /** generateRandomName: appends one drawn letter per position, then capitalises the first. */
  method GenerateRandomName(length: nat, draws: seq<nat>) returns (name: string)
    requires |draws| == length && ValidDraws(draws)
    ensures name == RandomName(draws)
    ensures |name| == length && NameShape(name)
  {
    name := "";
    for i := 0 to length
      invariant |name| == i
      invariant forall j :: 0 <= j < i ==> name[j] == Alphabet(j)[draws[j]]
    {
      name := name + [if i % 2 == 0 then Consonants[draws[i]] else Vowels[draws[i]]];
    }
    name := if |name| == 0 then "" else [UpperAscii(name[0])] + name[1..];
    RandomNameShape(draws);
  }

  /** generateName's draws: a first name of 3 to 7 letters and a last name of 3 to 9. */
  predicate NameDraws(first: seq<nat>, last: seq<nat>) {
    && 3 <= |first| <= 7 && ValidDraws(first)
    && 3 <= |last| <= 9 && ValidDraws(last)
  }

  /** The text generateName inserts. */
  function NameText(first: seq<nat>, last: seq<nat>): (r: string)
    requires NameDraws(first, last)
    ensures |r| == |first| + 1 + |last| && r[|first|] == ' '
  {
    RandomName(first) + " " + RandomName(last)
  }

  /** A generated full name is two capitalised names separated by the only space in it. */
  lemma NameTextLayout(first: seq<nat>, last: seq<nat>)
    requires NameDraws(first, last)
    ensures var t := NameText(first, last);
      && |t| == |first| + 1 + |last|
      && 7 <= |t| <= 17
      && t[..|first|] == RandomName(first) && NameShape(t[..|first|])
      && t[|first| + 1..] == RandomName(last) && NameShape(t[|first| + 1..])
      && forall i :: 0 <= i < |t| ==> (t[i] == ' ' <==> i == |first|)
  {
    RandomNameShape(first);
    RandomNameShape(last);
    var t := NameText(first, last);
    var f := RandomName(first);
    var l := RandomName(last);
    assert t[..|first|] == f;
    assert t[|first| + 1..] == l;
    forall i | 0 <= i < |t|
      ensures t[i] == ' ' <==> i == |first|
    {
      if i < |first| {
        assert t[i] == f[i];
      } else if i > |first| {
        assert t[i] == l[i - |first| - 1];
      }
    }
  }

  function DigitChar(d: nat): (c: char)
    requires d < 10
    ensures IsDigit(c)
  {
    ('0' as int + d) as char
  }

  /** `${n}`: the decimal numeral of n. */
  function Decimal(n: nat): (s: string)
    ensures 1 <= |s|
    ensures forall i :: 0 <= i < |s| ==> IsDigit(s[i])
    ensures n > 0 ==> s[0] != '0'
    ensures n < 10 ==> |s| == 1
    ensures n < 100 ==> |s| <= 2
    ensures n < 1000 ==> |s| <= 3
  {
    if n < 10 then [DigitChar(n)] else Decimal(n / 10) + [DigitChar(n % 10)]
  }

  function DigitValue(c: char): nat
    requires IsDigit(c)
  {
    c as int - '0' as int
  }

  /** The number a string of decimal digits denotes. */
  function DecimalValue(s: string): nat
    requires forall i :: 0 <= i < |s| ==> IsDigit(s[i])
  {
    if s == [] then 0 else DecimalValue(s[..|s| - 1]) * 10 + DigitValue(s[|s| - 1])
  }

  /** The numeral of n reads back as n. */
  lemma {:induction false} DecimalRoundTrip(n: nat)
    ensures DecimalValue(Decimal(n)) == n
  {
    if n >= 10 {
      var s := Decimal(n);
      assert s[..|s| - 1] == Decimal(n / 10);
      DecimalRoundTrip(n / 10);
    }
  }

  /** generateEmail's draws: the two names, a number below 1000 and one of the five domains. */
  predicate EmailDraws(first: seq<nat>, last: seq<nat>, num: nat, domain: nat) {
    NameDraws(first, last) && num < 1000 && domain < |Domains|
  }

  /** The part of a generated address before the '@'. */
  function LocalPart(first: seq<nat>, last: seq<nat>, num: nat): (r: string)
    requires NameDraws(first, last)
    ensures |r| == |first| + 1 + |last| + |Decimal(num)| && r[|first|] == '.'
  {
    Lowered(RandomName(first)) + "." + Lowered(RandomName(last)) + Decimal(num)
  }

  /** The text generateEmail inserts. */
  function EmailText(first: seq<nat>, last: seq<nat>, num: nat, domain: nat): (r: string)
    requires EmailDraws(first, last, num, domain)
    ensures |r| == |LocalPart(first, last, num)| + 1 + |Domains[domain]|
    ensures r[|LocalPart(first, last, num)|] == '@'
  {
    LocalPart(first, last, num) + "@" + Domains[domain]
  }

  lemma DomainsHaveNoAt(d: nat)
    requires d < |Domains|
    ensures forall i :: 0 <= i < |Domains[d]| ==> Domains[d][i] != '@'
  {
  }

  /** Every character of `s` is a lower-case letter or a digit. */
  predicate LowerOrDigits(s: string) {
    forall i :: 0 <= i < |s| ==> IsLower(s[i]) || IsDigit(s[i])
  }

  lemma RawNameLower(draws: seq<nat>)
    requires ValidDraws(draws)
    ensures LowerOrDigits(RawName(draws))
  {
    forall i | 0 <= i < |draws|
      ensures IsLower(RawName(draws)[i])
    {
      AlphabetLetters(i, draws[i]);
    }
  }

  /** `f + "." + l + d` splits back into its parts; only the '.' is neither letter nor digit. */
  lemma DotJoin(f: string, l: string, d: string)
    requires LowerOrDigits(f) && LowerOrDigits(l) && LowerOrDigits(d)
    ensures var p := f + "." + l + d;
      && |p| == |f| + 1 + |l| + |d|
      && p[..|f|] == f && p[|f|] == '.'
      && p[|f| + 1..|f| + 1 + |l|] == l
      && p[|f| + 1 + |l|..] == d
      && (forall i :: 0 <= i < |p| && i != |f| ==> IsLower(p[i]) || IsDigit(p[i]))
  {
    var p := f + "." + l + d;
    assert p[..|f|] == f;
    assert p[|f| + 1..|f| + 1 + |l|] == l;
    assert p[|f| + 1 + |l|..] == d;
    forall i | 0 <= i < |p| && i != |f|
      ensures IsLower(p[i]) || IsDigit(p[i])
    {
      if i < |f| {
        assert p[i] == f[i];
      } else if i < |f| + 1 + |l| {
        assert p[i] == l[i - |f| - 1];
      } else {
        assert p[i] == d[i - |f| - 1 - |l|];
      }
    }
  }

  /** The local part: the lower-case first name, a '.', the lower-case last name and the number. */
  lemma LocalPartLayout(first: seq<nat>, last: seq<nat>, num: nat)
    requires NameDraws(first, last)
    ensures var p := LocalPart(first, last, num);
      var dot := |first|;
      && |p| == |first| + 1 + |last| + |Decimal(num)|
      && p[..dot] == RawName(first) && p[dot] == '.'
      && p[dot + 1..dot + 1 + |last|] == RawName(last)
      && p[dot + 1 + |last|..] == Decimal(num)
      && (forall i :: 0 <= i < |p| && i != dot ==> IsLower(p[i]) || IsDigit(p[i]))
  {
    LoweredRandomName(first);
    LoweredRandomName(last);
    RawNameLower(first);
    RawNameLower(last);
    DotJoin(RawName(first), RawName(last), Decimal(num));
  }

  /** Joining two strings free of '@' with one '@' leaves exactly one, between them. */
  lemma OnlyAt(a: string, b: string)
    requires forall i :: 0 <= i < |a| ==> a[i] != '@'
    requires forall i :: 0 <= i < |b| ==> b[i] != '@'
    ensures var e := a + "@" + b;
      && (forall i :: 0 <= i < |e| ==> (e[i] == '@' <==> i == |a|))
      && e[..|a|] == a && e[|a| + 1..] == b
  {
  }

  /**
   * A generated address has exactly one '@'; before it, the lower-case first name,
   * a '.', the lower-case last name and the number, which reads back as the drawn
   * number; after it, one of the five domains.
   */
  lemma EmailLayout(first: seq<nat>, last: seq<nat>, num: nat, domain: nat)
    requires EmailDraws(first, last, num, domain)
    ensures var e := EmailText(first, last, num, domain);
      var at := |first| + 1 + |last| + |Decimal(num)|;
      && at < |e|
      && (forall i :: 0 <= i < |e| ==> (e[i] == '@' <==> i == at))
      && e[at + 1..] in Domains
      && e[..at] == LocalPart(first, last, num)
      && DecimalValue(e[|first| + 1 + |last|..at]) == num
  {
    var p := LocalPart(first, last, num);
    LocalPartLayout(first, last, num);
    DomainsHaveNoAt(domain);
    DecimalRoundTrip(num);
    assert forall i :: 0 <= i < |p| ==> p[i] != '@' by {
      forall i | 0 <= i < |p| ensures p[i] != '@' {
        if i == |first| { assert p[i] == '.'; } else { assert IsLower(p[i]) || IsDigit(p[i]); }
      }
    }
    OnlyAt(p, Domains[domain]);
    var e := EmailText(first, last, num, domain);
    assert e[|first| + 1 + |last|..|p|] == p[|first| + 1 + |last|..];
  }
}
