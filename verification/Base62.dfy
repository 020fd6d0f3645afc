/** The base-62 text of API keys. */
module Base62 {
  const DECIMAL: string := "0123456789"
  const UPPER: string := "ABCDEFGHIJKLMNOPQRSTUVWXYZ"
  const LOWER: string := "abcdefghijklmnopqrstuvwxyz"
  const ALPHABET: string := DECIMAL + UPPER + LOWER
  const PREFIX: string := "rl_"
  const KEY_BYTES: nat := 32
  const WIDTH: nat := 43

  function Pow(b: nat, e: nat): nat {
    if e == 0 then 1 else b * Pow(b, e - 1)
  }

  // ---------- numbers in a base ----------

  /** The number that digits denote, most significant digit first. */
  function Value(base: nat, digits: seq<nat>): nat {
    if digits == [] then 0 else Value(base, digits[..|digits| - 1]) * base + digits[|digits| - 1]
  }

  predicate AreDigits(base: nat, digits: seq<nat>) {
    forall i :: 0 <= i < |digits| ==> digits[i] < base
  }

  lemma {:induction false} ValueBound(base: nat, digits: seq<nat>)
    requires base > 0 && AreDigits(base, digits)
    ensures Value(base, digits) < Pow(base, |digits|)
  {
    if digits != [] {
      var n := |digits| - 1;
      ValueBound(base, digits[..n]);
      MulStep(Value(base, digits[..n]), Pow(base, n), base, digits[n]);
    }
  }

  lemma MulStep(v: nat, p: nat, base: nat, d: nat)
    requires v < p && d < base
    ensures v * base + d < base * p
  {
    assert (v + 1) * base <= p * base;
  }

  lemma {:induction false} ValueInjective(base: nat, a: seq<nat>, b: seq<nat>)
    requires base > 0 && AreDigits(base, a) && AreDigits(base, b) && |a| == |b|
    requires Value(base, a) == Value(base, b)
    ensures a == b
  {
    if a != [] {
      var n := |a| - 1;
      LastDigit(base, Value(base, a[..n]), a[n], Value(base, b[..n]), b[n]);
      ValueInjective(base, a[..n], b[..n]);
      assert a == a[..n] + [a[n]] && b == b[..n] + [b[n]];
    }
  }

  lemma LastDigit(base: nat, v: nat, d: nat, w: nat, e: nat)
    requires d < base && e < base && v * base + d == w * base + e
    ensures v == w && d == e
  {
    if v < w {
      HigherWins(base, v, d, w, e);
    } else if w < v {
      HigherWins(base, w, e, v, d);
    }
  }

  lemma HigherWins(base: nat, v: nat, d: nat, w: nat, e: nat)
    requires d < base && v < w
    ensures v * base + d < w * base + e
  {
    assert (v + 1) * base <= w * base;
  }

  /** A zero in front adds nothing. */
  lemma {:induction false} LeadingZero(base: nat, digits: seq<nat>)
    ensures Value(base, [0] + digits) == Value(base, digits)
  {
    if digits == [] {
      assert ([0] + digits)[..0] == [];
    } else {
      var n := |digits| - 1;
      LeadingZero(base, digits[..n]);
      assert ([0] + digits)[..n + 1] == [0] + digits[..n];
    }
  }

  /** A digit in front counts by its place. */
  lemma {:induction false} FrontDigit(base: nat, d: nat, digits: seq<nat>)
    ensures Value(base, [d] + digits) == d * Pow(base, |digits|) + Value(base, digits)
  {
    var all := [d] + digits;
    if digits == [] {
      assert all[..0] == [];
      assert Value(base, all) == Value(base, all[..0]) * base + d;
    } else {
      var n := |digits| - 1;
      FrontDigit(base, d, digits[..n]);
      assert all[..n + 1] == [d] + digits[..n];
      Distribute(d, Pow(base, n), Value(base, digits[..n]), base);
    }
  }

  lemma Distribute(d: nat, p: nat, v: nat, base: nat)
    ensures (d * p + v) * base == d * (base * p) + v * base
  {
  }

  // ---------- the margin ----------

  lemma {:induction false} PowAdd(b: nat, m: nat, n: nat)
    ensures Pow(b, m + n) == Pow(b, m) * Pow(b, n)
  {
    if m > 0 {
      PowAdd(b, m - 1, n);
      assert b * (Pow(b, m - 1) * Pow(b, n)) == (b * Pow(b, m - 1)) * Pow(b, n);
    }
  }

  lemma PowersOf62()
    ensures Pow(62, 42) == 1907440321293807005218825134272276737461586370979700379485518568438569631744
    ensures Pow(62, 43) == 118261299920216034323567158324881157722618355000741423528102151243191317168128
  {
    assert Pow(62, 3) == 238328;
    PowAdd(62, 3, 3);
    PowAdd(62, 6, 6);
    PowAdd(62, 12, 12);
    PowAdd(62, 24, 12);
    PowAdd(62, 36, 6);
    PowAdd(62, 42, 1);
    assert Pow(62, 1) == 62;
  }

  lemma PowersOf256()
    ensures Pow(256, 32) == 0x10000000000000000000000000000000000000000000000000000000000000000
  {
    assert Pow(256, 2) == 0x10000;
    PowAdd(256, 2, 2);
    PowAdd(256, 4, 4);
    PowAdd(256, 8, 8);
    PowAdd(256, 16, 16);
  }

  /** 43 base-62 digits are just enough for 32 bytes; 42 are not. */
  lemma FortyThreeDigits()
    ensures Pow(256, KEY_BYTES) < Pow(62, WIDTH)
    ensures Pow(62, WIDTH - 1) < Pow(256, KEY_BYTES)
  {
    PowersOf62();
    PowersOf256();
  }

  // ---------- the alphabet ----------

  predicate InAlphabet(c: char) {
    '0' <= c <= '9' || 'A' <= c <= 'Z' || 'a' <= c <= 'z'
  }

  /** The digit a character stands for. */
  function DigitOf(c: char): (d: nat)
    requires InAlphabet(c)
    ensures d < 62
  {
    if c <= '9' then c as int - '0' as int
    else if c <= 'Z' then c as int - 'A' as int + 10
    else c as int - 'a' as int + 36
  }

  lemma AlphabetDigit(d: nat)
    requires d < 62
    ensures |ALPHABET| == 62
    ensures InAlphabet(ALPHABET[d]) && DigitOf(ALPHABET[d]) == d
  {
    if d < 10 {
      DecimalChar(d);
    } else if d < 36 {
      UpperChar(d - 10);
    } else {
      LowerChar(d - 36);
    }
  }

  lemma DecimalChar(i: nat)
    requires i < 10
    ensures |DECIMAL| == 10 && DECIMAL[i] as int == '0' as int + i
  {
  }

  lemma UpperChar(i: nat)
    requires i < 26
    ensures |UPPER| == 26 && UPPER[i] as int == 'A' as int + i
  {
  }

  lemma LowerChar(i: nat)
    requires i < 26
    ensures |LOWER| == 26 && LOWER[i] as int == 'a' as int + i
  {
  }

  lemma DigitInjective(a: char, b: char)
    requires InAlphabet(a) && InAlphabet(b) && DigitOf(a) == DigitOf(b)
    ensures a == b
  {
  }

  predicate AllInAlphabet(s: string) {
    forall i :: 0 <= i < |s| ==> InAlphabet(s[i])
  }

  function DigitsOf(s: string): (ds: seq<nat>)
    requires AllInAlphabet(s)
    ensures |ds| == |s| && AreDigits(62, ds)
    ensures forall i :: 0 <= i < |s| ==> ds[i] == DigitOf(s[i])
  {
    seq(|s|, i requires 0 <= i < |s| => DigitOf(s[i]))
  }

  // ---------- encoding ----------

  function Reversed<T>(s: seq<T>): (r: seq<T>)
    ensures |r| == |s| && forall i :: 0 <= i < |s| ==> r[i] == s[|s| - 1 - i]
  {
    seq(|s|, i requires 0 <= i < |s| => s[|s| - 1 - i])
  }

  /** The number that characters denote when the least significant one comes first. */
  function LowFirst(s: string): nat
    requires AllInAlphabet(s)
  {
    if s == [] then 0 else DigitOf(s[|s| - 1]) * Pow(62, |s| - 1) + LowFirst(s[..|s| - 1])
  }

  lemma LowFirstAppend(s: string, c: char)
    requires AllInAlphabet(s) && InAlphabet(c)
    ensures AllInAlphabet(s + [c]) && LowFirst(s + [c]) == DigitOf(c) * Pow(62, |s|) + LowFirst(s)
  {
    assert (s + [c])[..|s|] == s;
  }

  lemma DigitsOfFront(c: char, s: string)
    requires AllInAlphabet(s) && InAlphabet(c)
    ensures AllInAlphabet([c] + s) && DigitsOf([c] + s) == [DigitOf(c)] + DigitsOf(s)
  {
  }

  /** Reversing turns one reading into the other. */
  lemma {:induction false} ReversedValue(s: string)
    requires AllInAlphabet(s)
    ensures Value(62, DigitsOf(Reversed(s))) == LowFirst(s)
  {
    if s == [] {
      assert DigitsOf(Reversed(s)) == [];
    } else {
      var n := |s| - 1;
      ReversedValue(s[..n]);
      assert Reversed(s) == [s[n]] + Reversed(s[..n]);
      DigitsOfFront(s[n], Reversed(s[..n]));
      FrontDigit(62, DigitOf(s[n]), DigitsOf(Reversed(s[..n])));
    }
  }

  lemma DigitStep(s: string, n: nat)
    requires AllInAlphabet(s)
    ensures |ALPHABET| == 62 && AllInAlphabet(s + [ALPHABET[n % 62]])
    ensures LowFirst(s + [ALPHABET[n % 62]]) + n / 62 * Pow(62, |s| + 1) == LowFirst(s) + n * Pow(62, |s|)
  {
    AlphabetDigit(n % 62);
    LowFirstAppend(s, ALPHABET[n % 62]);
    Carry(n, Pow(62, |s|));
  }

  lemma Carry(n: nat, p: nat)
    ensures n % 62 * p + n / 62 * (62 * p) == n * p
  {
    assert n == n / 62 * 62 + n % 62;
  }

  lemma AtLeastOne(n: nat, p: nat)
    requires n > 0
    ensures p <= n * p
  {
  }

  lemma TimesAtLeast(b: nat, p: nat)
    requires b > 0
    ensures p <= b * p
  {
  }

  lemma {:induction false} PowPositive(b: nat, n: nat)
    requires b > 0
    ensures Pow(b, n) > 0
  {
    if n > 0 {
      PowPositive(b, n - 1);
      TimesAtLeast(b, Pow(b, n - 1));
    }
  }

  lemma {:induction false} PowGrows(b: nat, m: nat, n: nat)
    requires b > 0 && m <= n
    ensures 0 < Pow(b, m) <= Pow(b, n)
    decreases n
  {
    PowPositive(b, m);
    if m < n {
      PowGrows(b, m, n - 1);
      TimesAtLeast(b, Pow(b, n - 1));
    }
  }

  /** The division loop: the digits of `value`, least significant first, without a leading zero. */
  method Digits(value: nat) returns (result: string)
    ensures AllInAlphabet(result) && LowFirst(result) == value
    ensures result != [] ==> Pow(62, |result| - 1) <= value
  {
    var n: nat := value;
    result := [];
    while n > 0
      invariant AllInAlphabet(result)
      invariant LowFirst(result) + n * Pow(62, |result|) == value
      invariant result != [] ==> Pow(62, |result| - 1) <= value
      decreases n
    {
      AlphabetDigit(n % 62);
      var c := ALPHABET[n % 62];
      DigitStep(result, n);
      AtLeastOne(n, Pow(62, |result|));
      result := result + [c];
      n := n / 62;
    }
    assert 0 * Pow(62, |result|) == 0;
  }

  /** The padding loop. */
  method Pad(digits: string) returns (result: string)
    requires AllInAlphabet(digits)
    ensures AllInAlphabet(result) && LowFirst(result) == LowFirst(digits)
    ensures |result| == if |digits| < WIDTH then WIDTH else |digits|
    ensures digits <= result
  {
    result := digits;
    while |result| < WIDTH
      invariant AllInAlphabet(result) && LowFirst(result) == LowFirst(digits)
      invariant |digits| <= |result| && (|result| <= WIDTH || result == digits)
      invariant digits <= result
    {
      AlphabetDigit(0);
      LowFirstAppend(result, ALPHABET[0]);
      result := result + [ALPHABET[0]];
    }
  }

  /** The reversal loop, swapping ends. */
  method ReverseInPlace(s: string) returns (r: string)
    ensures r == Reversed(s)
  {
    r := s;
    var i, j := 0, |s| - 1;
    while i < j
      invariant 0 <= i <= |s| && j == |s| - 1 - i && |r| == |s|
      invariant i <= j + 2
      invariant forall k :: 0 <= k < i ==> r[k] == s[|s| - 1 - k]
      invariant forall k :: j < k < |s| ==> r[k] == s[|s| - 1 - k]
      invariant forall k :: i <= k <= j ==> r[k] == s[k]
    {
      r := r[i := r[j]][j := r[i]];
      i, j := i + 1, j - 1;
    }
  }

  predicate AreBytes(b: seq<nat>) {
    AreDigits(256, b)
  }

  /** Every byte string becomes at least 43 characters that denote the same number; 32 bytes become exactly 43. */
  method EncodeBase62(b: seq<nat>) returns (text: string)
    requires AreBytes(b)
    ensures AllInAlphabet(text) && |text| >= WIDTH
    ensures Value(62, DigitsOf(text)) == Value(256, b)
    ensures |b| <= KEY_BYTES ==> |text| == WIDTH
    ensures |text| > WIDTH ==> Pow(62, |text| - 1) <= Value(256, b)
  {
    var digits := Digits(Value(256, b));
    var padded := Pad(digits);
    text := ReverseInPlace(padded);
    ReversedValue(padded);
    if |b| <= KEY_BYTES {
      WidthSuffices(b, |digits|);
    }
  }

  lemma ValueBelow(b: nat, digits: seq<nat>, n: nat)
    requires b > 0 && |digits| <= n && forall i :: 0 <= i < |digits| ==> digits[i] < b
    ensures Value(b, digits) < Pow(b, n)
  {
    ValueBound(b, digits);
    PowGrows(b, |digits|, n);
  }

  /** A number below b^w has no more than w digits. */
  lemma NoMoreDigits(b: nat, value: nat, w: nat, n: nat)
    requires b > 0 && value < Pow(b, w)
    requires n > 0 ==> Pow(b, n - 1) <= value
    ensures n <= w
  {
    if n > w {
      PowGrows(b, w, n - 1);
    }
  }

  lemma WidthSuffices(b: seq<nat>, n: nat)
    requires AreBytes(b) && |b| <= KEY_BYTES
    requires n > 0 ==> Pow(62, n - 1) <= Value(256, b)
    ensures n <= WIDTH
  {
    ValueBelow(256, b, KEY_BYTES);
    FortyThreeDigits();
    NoMoreDigits(62, Value(256, b), WIDTH, n);
  }

  /** Different byte strings of one length never get the same text. */
  lemma EncodingInjective(a: seq<nat>, b: seq<nat>, text: string)
    requires AreBytes(a) && AreBytes(b) && |a| == |b| && AllInAlphabet(text)
    requires Value(62, DigitsOf(text)) == Value(256, a) && Value(62, DigitsOf(text)) == Value(256, b)
    ensures a == b
  {
    ValueInjective(256, a, b);
  }

  /** The text of a given width is determined by the bytes. */
  lemma EncodingUnique(b: seq<nat>, s: string, t: string)
    requires AreBytes(b) && AllInAlphabet(s) && AllInAlphabet(t) && |s| == |t|
    requires Value(62, DigitsOf(s)) == Value(256, b) && Value(62, DigitsOf(t)) == Value(256, b)
    ensures s == t
  {
    ValueInjective(62, DigitsOf(s), DigitsOf(t));
    forall i | 0 <= i < |s|
      ensures s[i] == t[i]
    {
      DigitInjective(s[i], t[i]);
    }
  }

  /** A key is the prefix and the text of 32 random bytes: always 46 characters. */
  method GenerateApiKey(random: seq<nat>) returns (key: string)
    requires AreBytes(random) && |random| == KEY_BYTES
    ensures |key| == 46 && PREFIX <= key && AllInAlphabet(key[3..])
    ensures Value(62, DigitsOf(key[3..])) == Value(256, random)
  {
    var text := EncodeBase62(random);
    key := PREFIX + text;
    assert key[3..] == text;
  }
}
