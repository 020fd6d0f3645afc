/**
The string routines of the Go library that the modelled code calls.

A Go string is a sequence of bytes. Here it is a `string` in which every
character stands for the byte with the same code, so that literals can be written
as such. Case folding and trimming are those of ASCII.
*/
module GoStrings {
  import opened Wrappers

  const MAX_INT64: int := 0x7FFF_FFFF_FFFF_FFFF

  // ---------- searching and splitting ----------

  /** Position of the first `c` in `s`, or `|s|` when there is none. */
  function IndexOf(s: string, c: char): (i: nat)
    ensures i <= |s|
    ensures i < |s| ==> s[i] == c
    ensures i < |s| <==> c in s
  {
    if s == [] || s[0] == c then 0 else 1 + IndexOf(s[1..], c)
  }

  lemma {:induction false} IndexOfFirst(s: string, c: char)
    ensures c !in s[..IndexOf(s, c)]
  {
    if s != [] && s[0] != c {
      IndexOfFirst(s[1..], c);
      var i := IndexOf(s[1..], c);
      assert s[..i + 1] == [s[0]] + s[1..][..i];
    }
  }

  lemma {:induction false} IndexOfUnique(s: string, c: char, i: nat)
    requires i <= |s| && c !in s[..i]
    requires i < |s| ==> s[i] == c
    ensures IndexOf(s, c) == i
  {
    if i > 0 {
      assert s[0] in s[..i];
      assert s[..i][1..] == s[1..][..i - 1];
      IndexOfUnique(s[1..], c, i - 1);
    }
  }

  lemma IndexOfAppend(s: string, c: char, t: string)
    requires c !in s
    ensures IndexOf(s + [c] + t, c) == |s|
  {
    var u := s + [c] + t;
    assert u[..|s|] == s;
    IndexOfUnique(u, c, |s|);
  }

  /** strings.SplitN with a one-character separator and n > 0. */
  function SplitN(s: string, c: char, n: nat): (parts: seq<string>)
    requires n > 0
    ensures 0 < |parts| <= n
    decreases n
  {
    if n == 1 || c !in s then [s]
    else
      var i := IndexOf(s, c);
      [s[..i]] + SplitN(s[i + 1..], c, n - 1)
  }

  lemma {:induction false} SplitNHead(s: string, c: char, t: string, n: nat)
    requires c !in s && n > 1
    ensures SplitN(s + [c] + t, c, n) == [s] + SplitN(t, c, n - 1)
  {
    var u := s + [c] + t;
    IndexOfAppend(s, c, t);
    assert u[|s|] == c;
    assert u[..|s|] == s && u[|s| + 1..] == t;
  }

  // ---------- trimming ----------

  predicate IsSpace(c: char) {
    c == ' ' || '\t' <= c <= '\r'
  }

  function TrimLeft(s: string): string {
    if s != [] && IsSpace(s[0]) then TrimLeft(s[1..]) else s
  }

  function TrimRight(s: string): string {
    if s != [] && IsSpace(s[|s| - 1]) then TrimRight(s[..|s| - 1]) else s
  }

  /** strings.TrimSpace */
  function TrimSpace(s: string): string {
    TrimRight(TrimLeft(s))
  }

  lemma {:induction false} TrimLeftSpec(s: string)
    ensures var r := TrimLeft(s);
      (r == [] || !IsSpace(r[0])) && |r| <= |s| && r == s[|s| - |r|..]
  {
    if s != [] && IsSpace(s[0]) {
      TrimLeftSpec(s[1..]);
    }
  }

  lemma {:induction false} TrimRightSpec(s: string)
    ensures var r := TrimRight(s);
      (r == [] || !IsSpace(r[|r| - 1])) && |r| <= |s| && r == s[..|r|]
  {
    if s != [] && IsSpace(s[|s| - 1]) {
      TrimRightSpec(s[..|s| - 1]);
    }
  }

  /** Trimming leaves trimmed text, made of characters of the original, and leaves trimmed text alone. */
  lemma TrimSpaceSpec(s: string)
    ensures Trimmed(TrimSpace(s))
    ensures forall c :: c in TrimSpace(s) ==> c in s
    ensures Trimmed(s) ==> TrimSpace(s) == s
  {
    TrimLeftSpec(s);
    TrimRightSpec(TrimLeft(s));
  }

  /** No white space at either end. */
  predicate Trimmed(s: string) {
    s == [] || (!IsSpace(s[0]) && !IsSpace(s[|s| - 1]))
  }

  predicate Blank(s: string) {
    forall i :: 0 <= i < |s| ==> IsSpace(s[i])
  }

  lemma {:induction false} TrimLeftPad(pad: string, s: string)
    requires Blank(pad) && (s == [] || !IsSpace(s[0]))
    ensures TrimLeft(pad + s) == s
  {
    if pad == [] {
      assert pad + s == s;
    } else {
      TrimLeftPad(pad[1..], s);
      assert (pad + s)[1..] == pad[1..] + s;
    }
  }

  lemma {:induction false} TrimRightPad(s: string, pad: string)
    requires Blank(pad) && (s == [] || !IsSpace(s[|s| - 1]))
    ensures TrimRight(s + pad) == s
  {
    if pad == [] {
      assert s + pad == s;
    } else {
      var n := |pad| - 1;
      TrimRightPad(s, pad[..n]);
      assert (s + pad)[..|s + pad| - 1] == s + pad[..n];
    }
  }

  /** Trimming takes exactly the white space off both ends. */
  lemma TrimSpaceIs(left: string, s: string, right: string)
    requires Blank(left) && Blank(right) && Trimmed(s)
    ensures TrimSpace(left + s + right) == s
  {
    if s == [] {
      assert left + s + right == (left + right) + [];
      TrimLeftPad(left + right, []);
    } else {
      assert left + s + right == left + (s + right);
      TrimLeftPad(left, s + right);
      TrimRightPad(s, right);
    }
  }

  lemma {:induction false} TrimLeftPast(a: string, c: char, b: string)
    requires !IsSpace(c)
    ensures TrimLeft(a + [c] + b) == TrimLeft(a) + [c] + b
  {
    if a != [] && IsSpace(a[0]) {
      TrimLeftPast(a[1..], c, b);
      assert (a + [c] + b)[1..] == a[1..] + [c] + b;
    }
  }

  lemma {:induction false} TrimRightPast(a: string, c: char, b: string)
    requires !IsSpace(c)
    ensures TrimRight(a + [c] + b) == a + [c] + TrimRight(b)
  {
    var s := a + [c] + b;
    if b != [] && IsSpace(b[|b| - 1]) {
      TrimRightPast(a, c, b[..|b| - 1]);
      assert s[..|s| - 1] == a + [c] + b[..|b| - 1];
    } else if b == [] {
      assert s == a + [c];
    }
  }

  /** Trimming around a character that is not white space trims both sides on their own. */
  lemma TrimSpaceAround(a: string, c: char, b: string)
    requires !IsSpace(c)
    ensures TrimSpace(a + [c] + b) == TrimLeft(a) + [c] + TrimRight(b)
  {
    TrimLeftPast(a, c, b);
    TrimRightPast(TrimLeft(a), c, b);
  }

  lemma TrimLeftFirst(s: string)
    ensures TrimSpace(TrimLeft(s)) == TrimSpace(s)
  {
    TrimLeftSpec(s);
  }

  lemma {:induction false} TrimRightFirst(s: string)
    ensures TrimSpace(TrimRight(s)) == TrimSpace(s)
  {
    if s != [] && IsSpace(s[|s| - 1]) {
      var t, c := s[..|s| - 1], s[|s| - 1];
      assert s == t + [c];
      TrimRightFirst(t);
      TrimLeftLast(t, c);
    }
  }

  /** White space at the end is still there after trimming the start, or all is gone. */
  lemma {:induction false} TrimLeftLast(s: string, c: char)
    requires IsSpace(c)
    ensures TrimRight(TrimLeft(s + [c])) == TrimRight(TrimLeft(s))
  {
    if s == [] {
      assert (s + [c])[1..] == [];
    } else if IsSpace(s[0]) {
      TrimLeftLast(s[1..], c);
      assert (s + [c])[1..] == s[1..] + [c];
    } else {
      assert (s + [c])[..|s|] == s;
    }
  }

  // ---------- case ----------

  function UpperChar(c: char): char {
    if 'a' <= c <= 'z' then (c as int - 32) as char else c
  }

  /** strings.ToUpper */
  function ToUpper(s: string): (r: string)
    ensures |r| == |s|
  {
    if s == [] then [] else [UpperChar(s[0])] + ToUpper(s[1..])
  }

  lemma {:induction false} UpperAt(s: string, i: nat)
    requires i < |s|
    ensures ToUpper(s)[i] == UpperChar(s[i])
  {
    if i > 0 {
      UpperAt(s[1..], i - 1);
    }
  }

  /** Each letter is folded to its capital; `UpperOfUpper` says that nothing else changes. */
  lemma CapitalLetters(k: nat)
    requires k < 26
    ensures UpperChar("abcdefghijklmnopqrstuvwxyz"[k]) == "ABCDEFGHIJKLMNOPQRSTUVWXYZ"[k]
  {
  }

  predicate IsUpper(s: string) {
    forall i :: 0 <= i < |s| ==> !('a' <= s[i] <= 'z')
  }

  lemma {:induction false} UpperOfUpper(s: string)
    ensures IsUpper(ToUpper(s))
    ensures IsUpper(s) ==> ToUpper(s) == s
  {
    if s != [] {
      UpperOfUpper(s[1..]);
    }
  }

  /** Folding case creates neither separators nor white space. */
  lemma UpperKeeps(s: string, c: char)
    requires !('A' <= c <= 'Z') && c !in s
    ensures c !in ToUpper(s)
  {
    forall i | 0 <= i < |s|
      ensures ToUpper(s)[i] != c
    {
      UpperAt(s, i);
      assert s[i] in s;
    }
  }

  lemma UpperTrimmed(s: string)
    requires Trimmed(s)
    ensures Trimmed(ToUpper(s))
  {
    if s != [] {
      UpperAt(s, 0);
      UpperAt(s, |s| - 1);
    }
  }

  // ---------- numbers ----------

  predicate IsDigit(c: char) {
    '0' <= c <= '9'
  }

  predicate AllDigits(s: string) {
    forall i :: 0 <= i < |s| ==> IsDigit(s[i])
  }

  function DigitChar(d: nat): (c: char)
    requires d < 10
    ensures IsDigit(c) && c as int - '0' as int == d
  {
    ('0' as int + d) as char
  }

  /** The number a string of digits denotes. */
  function DigitsValue(s: string): nat
    requires AllDigits(s)
  {
    if s == [] then 0 else 10 * DigitsValue(s[..|s| - 1]) + (s[|s| - 1] as int - '0' as int)
  }

  function TenTo(n: nat): nat {
    if n == 0 then 1 else 10 * TenTo(n - 1)
  }

  lemma DigitsLast(init: string, c: char)
    requires AllDigits(init) && IsDigit(c)
    ensures DigitsValue(init + [c]) == 10 * DigitsValue(init) + (c as int - '0' as int)
  {
    assert (init + [c])[..|init|] == init;
  }

  lemma TenTimes(x: nat, t: nat)
    ensures 10 * (x * t) == x * (10 * t)
  {
  }

  /** Place value: digits in front count by the power of ten of those behind them. */
  lemma {:induction false} DigitsAppend(a: string, b: string)
    requires AllDigits(a) && AllDigits(b)
    ensures DigitsValue(a + b) == DigitsValue(a) * TenTo(|b|) + DigitsValue(b)
  {
    if b == [] {
      assert a + b == a;
    } else {
      var init, c := b[..|b| - 1], b[|b| - 1];
      assert b == init + [c] && a + b == (a + init) + [c];
      DigitsAppend(a, init);
      DigitsLast(a + init, c);
      DigitsLast(init, c);
      TenTimes(DigitsValue(a), TenTo(|init|));
    }
  }

  /** The %d format of a non-negative number. */
  function Decimal(n: nat): (s: string)
    ensures s != [] && AllDigits(s)
  {
    if n < 10 then [DigitChar(n)] else Decimal(n / 10) + [DigitChar(n % 10)]
  }

  lemma {:induction false} DecimalValue(n: nat)
    ensures DigitsValue(Decimal(n)) == n
  {
    var s := Decimal(n);
    if n < 10 {
      assert s[..0] == [];
    } else {
      DecimalValue(n / 10);
      assert s[..|s| - 1] == Decimal(n / 10);
    }
  }

  /** strconv.FormatInt(n, 10) */
  function FormatInt(n: int): string {
    if n >= 0 then Decimal(n) else "-" + Decimal(-n)
  }

  /** strconv.ParseInt(s, 10, 64); None is any error. */
  function ParseInt(s: string): (r: Option<int>)
    ensures r.Some? ==> -MAX_INT64 - 1 <= r.value <= MAX_INT64
  {
    if s == [] then None
    else
      var signed := s[0] == '-' || s[0] == '+';
      var digits := if signed then s[1..] else s;
      if digits == [] || !AllDigits(digits) then None
      else
        var v: int := DigitsValue(digits);
        if s[0] == '-' then (if v > MAX_INT64 + 1 then None else Some(-v))
        else if v > MAX_INT64 then None
        else Some(v)
  }

  lemma ParseDecimal(n: nat)
    ensures n <= MAX_INT64 ==> ParseInt(Decimal(n)) == Some(n)
    ensures n > MAX_INT64 ==> ParseInt(Decimal(n)) == None
  {
    DecimalValue(n);
    assert IsDigit(Decimal(n)[0]);
  }

  /** Formatting and parsing undo each other on the whole 64-bit range, and numbers beyond it are refused. */
  lemma ParseFormatInt(n: int)
    ensures ParseInt(FormatInt(n)) == if -MAX_INT64 - 1 <= n <= MAX_INT64 then Some(n) else None
  {
    if n >= 0 {
      ParseDecimal(n);
    } else {
      DecimalValue(-n);
      assert FormatInt(n)[1..] == Decimal(-n);
    }
  }

  /** Leading zeros and an explicit sign are accepted, up to the 64-bit range. */
  lemma ParseSigned(sign: string, digits: string)
    requires sign == "" || sign == "+" || sign == "-"
    requires digits != [] && AllDigits(digits)
    ensures var m: int := DigitsValue(digits);
      var v := if sign == "-" then -m else m;
      ParseInt(sign + digits) == if -MAX_INT64 - 1 <= v <= MAX_INT64 then Some(v) else None
  {
    assert IsDigit(digits[0]);
    if sign == "" {
      assert sign + digits == digits;
    } else {
      assert (sign + digits)[1..] == digits;
    }
  }

  /** Nothing else is a number. */
  lemma ParseOnlySigned(s: string)
    requires ParseInt(s).Some?
    ensures exists sign, digits :: (sign == "" || sign == "+" || sign == "-") && digits != []
              && AllDigits(digits) && s == sign + digits
  {
    if s[0] == '-' || s[0] == '+' {
      assert s == [s[0]] + s[1..];
    } else {
      assert s == "" + s;
    }
  }
}
