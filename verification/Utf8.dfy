/** UTF-8 as Go's unicode/utf8 package checks it, and the parser's repair of text that is not UTF-8. */
module Utf8 {
  import opened Wrappers
  import opened Sequences

  predicate InRange(c: char, lo: int, hi: int) {
    lo <= c as int <= hi
  }

  predicate Continues(c: char) {
    InRange(c, 0x80, 0xBF)
  }

  /** Length of the encoded character at the start of `s`; 0 when the bytes there are not one. */
  function RuneLen(s: string): (n: nat)
    requires s != []
    ensures n <= |s|
  {
    if InRange(s[0], 0x00, 0x7F) then 1
    else if InRange(s[0], 0xC2, 0xDF) then
      if |s| >= 2 && Continues(s[1]) then 2 else 0
    else if InRange(s[0], 0xE0, 0xEF) then
      if |s| >= 3
         && InRange(s[1], if s[0] as int == 0xE0 then 0xA0 else 0x80, if s[0] as int == 0xED then 0x9F else 0xBF)
         && Continues(s[2])
      then 3 else 0
    else if InRange(s[0], 0xF0, 0xF4) then
      if |s| >= 4
         && InRange(s[1], if s[0] as int == 0xF0 then 0x90 else 0x80, if s[0] as int == 0xF4 then 0x8F else 0xBF)
         && Continues(s[2]) && Continues(s[3])
      then 4 else 0
    else 0
  }

  /** utf8.ValidString */
  predicate Valid(s: string) {
    s == [] || (RuneLen(s) > 0 && Valid(s[RuneLen(s)..]))
  }

  lemma RuneLenAppend(a: string, b: string)
    requires a != [] && RuneLen(a) > 0
    ensures RuneLen(a + b) == RuneLen(a)
  {
    assert forall i :: 0 <= i < |a| ==> (a + b)[i] == a[i];
  }

  lemma {:induction false} ValidAppend(a: string, b: string)
    requires Valid(a) && Valid(b)
    ensures Valid(a + b)
  {
    if a == [] {
      assert a + b == b;
    } else {
      var n := RuneLen(a);
      ValidAppend(a[n..], b);
      RuneLenAppend(a, b);
      assert (a + b)[n..] == a[n..] + b;
    }
  }

  lemma {:induction false} AsciiValid(s: string)
    requires forall i :: 0 <= i < |s| ==> InRange(s[i], 0, 0x7F)
    ensures Valid(s)
  {
    if s != [] {
      AsciiValid(s[1..]);
    }
  }

  // ---------- valid text is encoded text ----------

  /** The code points that UTF-8 encodes: all but the surrogates. */
  predicate IsScalar(cp: int) {
    0 <= cp <= 0xD7FF || 0xE000 <= cp <= 0x10FFFF
  }

  /** The UTF-8 encoding of a code point, as section 3 of RFC 3629 has it. */
  function Encode(cp: int): string
    requires IsScalar(cp)
  {
    if cp < 0x80 then [cp as char]
    else if cp < 0x800 then [(0xC0 + cp / 0x40) as char, Tail(cp)]
    else if cp < 0x10000 then [(0xE0 + cp / 0x1000) as char, Tail(cp / 0x40), Tail(cp)]
    else [(0xF0 + cp / 0x40000) as char, Tail(cp / 0x1000), Tail(cp / 0x40), Tail(cp)]
  }

  function Tail(cp: nat): char {
    (0x80 + cp % 0x40) as char
  }

  function EncodeAll(cps: seq<int>): string
    requires forall i :: 0 <= i < |cps| ==> IsScalar(cps[i])
  {
    if cps == [] then [] else Encode(cps[0]) + EncodeAll(cps[1..])
  }

  lemma EncodedIsRune3(cp: int)
    requires 0x800 <= cp < 0x10000 && IsScalar(cp)
    ensures RuneLen(Encode(cp)) == 3
  {
    var s := Encode(cp);
    assert Continues(s[1]) && Continues(s[2]);
    assert s[0] as int == 0xE0 + cp / 0x1000 && s[1] as int == 0x80 + cp / 0x40 % 0x40;
  }

  lemma EncodedIsRune4(cp: int)
    requires 0x10000 <= cp <= 0x10FFFF
    ensures RuneLen(Encode(cp)) == 4
  {
    var s := Encode(cp);
    assert Continues(s[1]) && Continues(s[2]) && Continues(s[3]);
    assert s[0] as int == 0xF0 + cp / 0x40000 && s[1] as int == 0x80 + cp / 0x1000 % 0x40;
  }

  lemma EncodedIsRune(cp: int)
    requires IsScalar(cp)
    ensures Encode(cp) != [] && RuneLen(Encode(cp)) == |Encode(cp)|
  {
    if cp >= 0x10000 {
      EncodedIsRune4(cp);
    } else if cp >= 0x800 {
      EncodedIsRune3(cp);
    }
  }

  /** The low six bits of a byte. */
  function Low(c: char): int {
    c as int - 0x80
  }

  lemma TailOf(high: nat, c: char)
    requires Continues(c)
    ensures Tail(high * 0x40 + Low(c)) == c && (high * 0x40 + Low(c)) / 0x40 == high
  {
  }

  lemma RuneIsEncoded2(s: string) returns (cp: int)
    requires |s| == 2 && RuneLen(s) == 2
    ensures IsScalar(cp) && Encode(cp) == s
  {
    var top := s[0] as int - 0xC0;
    cp := top * 0x40 + Low(s[1]);
    TailOf(top, s[1]);
  }

  lemma RuneIsEncoded3(s: string) returns (cp: int)
    requires |s| == 3 && RuneLen(s) == 3
    ensures IsScalar(cp) && Encode(cp) == s
  {
    var top := s[0] as int - 0xE0;
    var high := top * 0x40 + Low(s[1]);
    cp := high * 0x40 + Low(s[2]);
    TailOf(top, s[1]);
    TailOf(high, s[2]);
    assert cp / 0x1000 == top;
  }

  lemma RuneIsEncoded4(s: string) returns (cp: int)
    requires |s| == 4 && RuneLen(s) == 4
    ensures IsScalar(cp) && Encode(cp) == s
  {
    var top := s[0] as int - 0xF0;
    var high := top * 0x40 + Low(s[1]);
    var mid := high * 0x40 + Low(s[2]);
    cp := mid * 0x40 + Low(s[3]);
    TailOf(top, s[1]);
    TailOf(high, s[2]);
    TailOf(mid, s[3]);
    assert cp / 0x1000 == high && cp / 0x40000 == top;
  }

  lemma RuneIsEncoded(s: string) returns (cp: int)
    requires s != [] && RuneLen(s) == |s|
    ensures IsScalar(cp) && Encode(cp) == s
  {
    if |s| == 1 {
      cp := s[0] as int;
    } else if |s| == 2 {
      cp := RuneIsEncoded2(s);
    } else if |s| == 3 {
      cp := RuneIsEncoded3(s);
    } else {
      cp := RuneIsEncoded4(s);
    }
  }

  lemma RuneLenPrefix(s: string)
    requires s != [] && RuneLen(s) > 0
    ensures RuneLen(s[..RuneLen(s)]) == RuneLen(s)
  {
  }

  lemma {:induction false} ValidIsEncoded(s: string) returns (cps: seq<int>)
    requires Valid(s)
    ensures forall i :: 0 <= i < |cps| ==> IsScalar(cps[i])
    ensures s == EncodeAll(cps)
    decreases |s|
  {
    if s == [] {
      cps := [];
    } else {
      var n := RuneLen(s);
      RuneLenPrefix(s);
      var cp := RuneIsEncoded(s[..n]);
      var rest := ValidIsEncoded(s[n..]);
      cps := [cp] + rest;
      assert cps[1..] == rest && s == s[..n] + s[n..];
    }
  }

  lemma {:induction false} EncodedIsValid(cps: seq<int>)
    requires forall i :: 0 <= i < |cps| ==> IsScalar(cps[i])
    ensures Valid(EncodeAll(cps))
  {
    if cps != [] {
      var e := Encode(cps[0]);
      EncodedIsRune(cps[0]);
      assert e[|e|..] == [];
      EncodedIsValid(cps[1..]);
      ValidAppend(e, EncodeAll(cps[1..]));
    }
  }

  /** Text is valid exactly when it is the encoding of some code points. */
  lemma ValidIff(s: string)
    ensures Valid(s)
       <==> exists cps: seq<int> :: (forall i :: 0 <= i < |cps| ==> IsScalar(cps[i])) && s == EncodeAll(cps)
  {
    if Valid(s) {
      var cps := ValidIsEncoded(s);
    }
    forall cps: seq<int> | (forall i :: 0 <= i < |cps| ==> IsScalar(cps[i])) && s == EncodeAll(cps)
      ensures Valid(s)
    {
      EncodedIsValid(cps);
    }
  }

  // ---------- repair ----------

  /** The replacement character U+FFFD. */
  const REPLACEMENT: string := ['\U{EF}', '\U{BF}', '\U{BD}']

  /** strings.ToValidUTF8 with U+FFFD: every run of bad bytes becomes one replacement character. */
  function ToValid(s: string, afterBad: bool): string
    decreases |s|
  {
    if s == [] then []
    else
      var n := RuneLen(s);
      if n > 0 then s[..n] + ToValid(s[n..], false)
      else (if afterBad then [] else REPLACEMENT) + ToValid(s[1..], true)
  }

  lemma {:induction false} ToValidIsValid(s: string, afterBad: bool)
    ensures Valid(ToValid(s, afterBad))
    decreases |s|
  {
    if s != [] {
      var n := RuneLen(s);
      if n > 0 {
        ToValidIsValid(s[n..], false);
        assert RuneLen(s[..n]) == n && s[..n][n..] == [];
        ValidAppend(s[..n], ToValid(s[n..], false));
      } else {
        ToValidIsValid(s[1..], true);
        assert RuneLen(REPLACEMENT) == 3 && REPLACEMENT[3..] == [];
        ValidAppend(if afterBad then [] else REPLACEMENT, ToValid(s[1..], true));
      }
    }
  }

  lemma RepairRune(rune: string, rest: string)
    requires rune != [] && RuneLen(rune) == |rune|
    ensures ToValid(rune + rest, false) == rune + ToValid(rest, false)
  {
    RuneLenAppend(rune, rest);
    assert (rune + rest)[..|rune|] == rune && (rune + rest)[|rune|..] == rest;
  }

  /** The first encoded character of valid text. */
  lemma ValidUnfold(v: string) returns (rune: string, more: string)
    requires v != [] && Valid(v)
    ensures v == rune + more && rune != [] && RuneLen(rune) == |rune| && Valid(more)
  {
    var n := RuneLen(v);
    rune, more := v[..n], v[n..];
    RuneLenPrefix(v);
  }

  lemma {:induction false} RepairKeeps(v: string, rest: string)
    requires Valid(v)
    ensures ToValid(v + rest, false) == v + ToValid(rest, false)
    decreases |v|
  {
    if v == [] {
      assert v + rest == rest && v + ToValid(rest, false) == ToValid(rest, false);
    } else {
      var rune, more := ValidUnfold(v);
      RepairKeeps(more, rest);
      RepairRune(rune, more + rest);
      Associative(rune, more, rest);
      Associative(rune, more, ToValid(rest, false));
    }
  }

  /** No byte of `bad` starts an encoded character, and what follows does or is the end. */
  predicate IsBadRun(bad: string, rest: string) {
    && (forall i :: 0 <= i < |bad| ==> RuneLen((bad + rest)[i..]) == 0)
    && (rest == [] || RuneLen(rest) > 0)
  }

  lemma {:induction false} RepairSkips(bad: string, rest: string)
    requires IsBadRun(bad, rest)
    ensures ToValid(bad + rest, true) == ToValid(rest, false)
    decreases |bad|
  {
    if bad == [] {
      assert bad + rest == rest;
    } else {
      var s := bad + rest;
      assert s[1..] == bad[1..] + rest && s == s[0..];
      assert forall i :: 0 <= i < |bad| - 1 ==> (bad[1..] + rest)[i..] == s[i + 1..];
      RepairSkips(bad[1..], rest);
      assert [] + ToValid(s[1..], true) == ToValid(s[1..], true);
    }
  }

  /** Valid text stays, and each run of bad bytes becomes one replacement character. */
  lemma RepairsRun(v: string, bad: string, rest: string)
    requires Valid(v) && bad != [] && IsBadRun(bad, rest)
    ensures ToValid(v + (bad + rest), false) == v + (REPLACEMENT + ToValid(rest, false))
  {
    var s := bad + rest;
    RepairKeeps(v, s);
    assert s[1..] == bad[1..] + rest && s == s[0..];
    assert forall i :: 0 <= i < |bad| - 1 ==> (bad[1..] + rest)[i..] == s[i + 1..];
    RepairSkips(bad[1..], rest);
  }

  /**
  The parser's sanitizeEncoding. `legacy` is the Windows-1252 decoder, a library
  table that is not part of this model; None is its error.
  */
  function Sanitize(s: string, legacy: string -> Option<string>): (r: string)
    ensures Valid(r)
    ensures Valid(s) ==> r == s
    ensures !Valid(s) ==> r == match legacy(s)
      case Some(decoded) => if Valid(decoded) then decoded else ToValid(s, false)
      case None => ToValid(s, false)
  {
    if Valid(s) then s
    else
      var decoded := legacy(s);
      if decoded.Some? && Valid(decoded.value) then decoded.value
      else
        ToValidIsValid(s, false);
        ToValid(s, false)
  }
}
