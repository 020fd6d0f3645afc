/** Taking callsigns apart. */
module Callsign {
  import opened GoStrings

  predicate IsLetter(c: char) {
    'A' <= c <= 'Z' || 'a' <= c <= 'z'
  }

  predicate IsKnownSuffix(s: string) {
    s == "P" || s == "M" || s == "MM" || s == "AM" || s == "QRP" || s == "A" || s == "R"
  }

  datatype ParsedCallsign = ParsedCallsign(
    raw: string, base: string, prefixOverride: string, suffix: string, suffixKnown: bool, wpxPrefix: string)

  // ---------- segments ----------

  /** strings.Split */
  function Split(s: string, c: char): (parts: seq<string>)
    ensures parts != []
    decreases |s|
  {
    var i := IndexOf(s, c);
    if i == |s| then [s] else [s[..i]] + Split(s[i + 1..], c)
  }

  /** strings.Join */
  function Join(parts: seq<string>, c: char): string {
    if parts == [] then ""
    else if |parts| == 1 then parts[0]
    else parts[0] + [c] + Join(parts[1..], c)
  }

  lemma JoinCons(first: string, rest: seq<string>, c: char)
    requires rest != []
    ensures Join([first] + rest, c) == first + [c] + Join(rest, c)
  {
    assert ([first] + rest)[1..] == rest;
  }

  /** The first segment and what follows its separator. */
  lemma SplitUnfold(s: string, c: char) returns (head: string, tail: string)
    requires c in s
    ensures s == head + [c] + tail && Split(s, c) == [head] + Split(tail, c)
  {
    var i := IndexOf(s, c);
    head, tail := s[..i], s[i + 1..];
  }

  lemma SplitWhole(s: string, c: char)
    requires c !in s
    ensures Split(s, c) == [s]
  {
  }

  lemma {:induction false} JoinSplit(s: string, c: char)
    ensures Join(Split(s, c), c) == s
    decreases |s|
  {
    if c in s {
      var head, tail := SplitUnfold(s, c);
      JoinSplit(tail, c);
      JoinCons(head, Split(tail, c), c);
    } else {
      SplitWhole(s, c);
    }
  }

  // ---------- shapes ----------

  predicate LooksLike(s: string) {
    |s| >= 3 && (exists i :: 0 <= i < |s| && IsDigit(s[i])) && (exists i :: 0 <= i < |s| && IsLetter(s[i]))
  }

  method LooksLikeCall(s: string) returns (looks: bool)
    ensures looks <==> LooksLike(s)
  {
    if |s| < 3 {
      return false;
    }
    var hasDigit, hasLetter := false, false;
    for i := 0 to |s|
      invariant hasDigit <==> exists k :: 0 <= k < i && IsDigit(s[k])
      invariant hasLetter <==> exists k :: 0 <= k < i && IsLetter(s[k])
    {
      if IsDigit(s[i]) {
        hasDigit := true;
      }
      if IsLetter(s[i]) {
        hasLetter := true;
      }
    }
    looks := hasDigit && hasLetter;
  }

  /** A digit with a letter somewhere before it. */
  predicate DigitAfterLetter(call: string, k: int) {
    0 <= k < |call| && IsDigit(call[k]) && exists j :: 0 <= j < k && IsLetter(call[j])
  }

  /** The shortest prefix that ends in a digit after a letter, or the whole call if there is none. */
  predicate IsWpxPrefix(call: string, p: string) {
    && p <= call
    && (p == call || DigitAfterLetter(call, |p| - 1))
    && forall k :: 0 <= k < |p| - 1 ==> !DigitAfterLetter(call, k)
  }

  lemma WpxPrefixUnique(call: string, p: string, q: string)
    requires IsWpxPrefix(call, p) && IsWpxPrefix(call, q)
    ensures p == q
  {
    assert |p| < |q| ==> !DigitAfterLetter(call, |p| - 1) || |p| == 0;
    assert |q| < |p| ==> !DigitAfterLetter(call, |q| - 1) || |q| == 0;
    assert p == call[..|p|] && q == call[..|q|];
  }

  method ExtractWpxPrefix(call: string) returns (prefix: string)
    ensures IsWpxPrefix(call, prefix)
  {
    if call == "" {
      return "";
    }
    var firstLetter := 0;
    while firstLetter < |call| && !IsLetter(call[firstLetter])
      invariant firstLetter <= |call|
      invariant forall j :: 0 <= j < firstLetter ==> !IsLetter(call[j])
    {
      firstLetter := firstLetter + 1;
    }
    if firstLetter == |call| {
      return call;
    }
    for i := firstLetter to |call|
      invariant forall k :: 0 <= k < i ==> !DigitAfterLetter(call, k)
    {
      if IsDigit(call[i]) {
        assert IsLetter(call[firstLetter]);
        return call[..i + 1];
      }
    }
    return call;
  }

  // ---------- decomposition ----------

  /** A second segment that is the call itself, so that the first is a prefix. */
  predicate IsCallBehind(right: string) {
    LooksLike(right) && !IsKnownSuffix(right)
  }

  /**
  How a callsign is taken apart, by its slashes. One segment is the base. Of two, the second
  is the base behind a prefix if it looks like a call and is no known suffix, and a suffix
  otherwise. Of more, the first is the prefix, the second the base, and the rest the suffix.
  */
  predicate IsParts(raw: string, prefixOverride: string, base: string, suffix: string) {
    || (raw == base && '/' !in base && prefixOverride == "" && suffix == "")
    || (raw == prefixOverride + ['/'] + base && '/' !in prefixOverride && '/' !in base && suffix == ""
        && IsCallBehind(base))
    || (raw == base + ['/'] + suffix && '/' !in base && '/' !in suffix && prefixOverride == ""
        && !IsCallBehind(suffix))
    || (raw == prefixOverride + ['/'] + (base + ['/'] + suffix) && '/' !in prefixOverride && '/' !in base)
  }

  function Decompose(upper: string): (string, string, string) {
    var parts := Split(upper, '/');
    if |parts| == 1 then ("", parts[0], "")
    else if |parts| == 2 then
      if IsCallBehind(parts[1]) then (parts[0], parts[1], "") else ("", parts[0], parts[1])
    else (parts[0], parts[1], Join(parts[2..], '/'))
  }

  /** The segments of two and of three or more. */
  lemma SplitTwo(left: string, right: string)
    requires '/' !in left && '/' !in right
    ensures Split(left + ['/'] + right, '/') == [left, right]
  {
    SplitFront(left, right);
    SplitWhole(right, '/');
  }

  lemma SplitFront(left: string, rest: string)
    requires '/' !in left
    ensures Split(left + ['/'] + rest, '/') == [left] + Split(rest, '/')
  {
    IndexOfAppend(left, '/', rest);
    var s := left + ['/'] + rest;
    assert s[..|left|] == left && s[|left| + 1..] == rest;
  }

  lemma OneSegment(raw: string)
    requires '/' !in raw
    ensures Decompose(raw) == ("", raw, "")
  {
    SplitWhole(raw, '/');
  }

  lemma TwoSegments(left: string, right: string)
    requires '/' !in left && '/' !in right
    ensures Decompose(left + ['/'] + right) == if IsCallBehind(right) then (left, right, "") else ("", left, right)
  {
    SplitTwo(left, right);
  }

  lemma ManySegments(p: string, b: string, s: string)
    requires '/' !in p && '/' !in b
    ensures Decompose(p + ['/'] + (b + ['/'] + s)) == (p, b, s)
  {
    var rest := Split(s, '/');
    SplitFront(p, b + ['/'] + s);
    SplitFront(b, s);
    JoinSplit(s, '/');
    assert ([p] + ([b] + rest))[2..] == rest;
  }

  /** There is one way to take a callsign apart, and it is taken. */
  lemma PartsAreUnique(raw: string, p: string, b: string, s: string)
    ensures IsParts(raw, p, b, s) <==> (p, b, s) == Decompose(raw)
  {
    if IsParts(raw, p, b, s) {
      if raw == b && '/' !in b && p == "" && s == "" {
        OneSegment(raw);
      } else if raw == p + ['/'] + b && '/' !in p && '/' !in b && s == "" && IsCallBehind(b) {
        TwoSegments(p, b);
      } else if raw == b + ['/'] + s && '/' !in b && '/' !in s && p == "" && !IsCallBehind(s) {
        TwoSegments(b, s);
      } else {
        ManySegments(p, b, s);
      }
    }
    DecomposeIsParts(raw);
  }

  /** A callsign without a slash, with one, or with more. */
  lemma DecomposeIsParts(raw: string)
    ensures var (p, b, s) := Decompose(raw);
      IsParts(raw, p, b, s)
  {
    if '/' !in raw {
      OneSegment(raw);
    } else {
      var left, rest := AtSlash(raw);
      if '/' !in rest {
        TwoSegments(left, rest);
      } else {
        var b, s := AtSlash(rest);
        ManySegments(left, b, s);
      }
    }
  }

  lemma AtSlash(s: string) returns (front: string, back: string)
    requires '/' in s
    ensures '/' !in front && s == front + ['/'] + back
  {
    var i := IndexOf(s, '/');
    IndexOfFirst(s, '/');
    front, back := s[..i], s[i + 1..];
  }

  method ParseCallsign(raw: string) returns (pc: ParsedCallsign)
    ensures pc.raw == ToUpper(TrimSpace(raw))
    ensures IsParts(pc.raw, pc.prefixOverride, pc.base, pc.suffix)
    ensures pc.suffixKnown <==> IsKnownSuffix(pc.suffix)
    ensures if pc.prefixOverride != "" then pc.wpxPrefix == pc.prefixOverride else IsWpxPrefix(pc.base, pc.wpxPrefix)
  {
    var upper := ToUpper(TrimSpace(raw));
    if upper == "" {
      return ParsedCallsign(upper, upper, "", "", false, "");
    }
    var parts := Split(upper, '/');
    var base, prefixOverride, suffix, suffixKnown := "", "", "", false;
    if |parts| == 1 {
      base := parts[0];
    } else if |parts| == 2 {
      var left, right := parts[0], parts[1];
      var looks := LooksLikeCall(right);
      if IsKnownSuffix(right) {
        base, suffix, suffixKnown := left, right, true;
      } else if looks {
        prefixOverride, base := left, right;
      } else {
        base, suffix := left, right;
      }
    } else {
      prefixOverride, base, suffix := parts[0], parts[1], Join(parts[2..], '/');
      suffixKnown := IsKnownSuffix(suffix);
    }
    var wpx := prefixOverride;
    if prefixOverride == "" {
      wpx := ExtractWpxPrefix(base);
    }
    PartsAreUnique(upper, prefixOverride, base, suffix);
    pc := ParsedCallsign(upper, base, prefixOverride, suffix, suffixKnown, wpx);
  }

  /** The parts that are present, joined by '/'. */
  function Recompose(prefixOverride: string, base: string, suffix: string): string {
    (if prefixOverride != "" then prefixOverride + "/" else "") + base + (if suffix != "" then "/" + suffix else "")
  }

  /** The segment in the place of an optional part is not empty. */
  predicate NoPartLost(upper: string) {
    var parts := Split(upper, '/');
    if |parts| == 1 then true
    else if |parts| == 2 then
      if IsCallBehind(parts[1]) then parts[0] != "" else parts[1] != ""
    else parts[0] != "" && !(|parts| == 3 && parts[2] == "")
  }

  lemma RecomposeTwo(upper: string, left: string, right: string)
    requires upper == left + "/" + right
    ensures Recompose(left, right, "") == upper <==> left != ""
    ensures Recompose("", left, right) == upper <==> right != ""
  {
  }

  lemma RecomposeThree(upper: string, p: string, b: string, s: string)
    requires upper == p + "/" + (b + "/" + s)
    ensures Recompose(p, b, s) == upper <==> p != "" && s != ""
  {
    if p != "" && s != "" {
      assert p + "/" + b + ("/" + s) == upper;
    } else {
      assert |Recompose(p, b, s)| < |upper|;
    }
  }

  /** The parts give back the callsign exactly when no optional part is empty. */
  lemma RecomposeIff(upper: string, p: string, b: string, s: string)
    requires IsParts(upper, p, b, s)
    ensures Recompose(p, b, s) == upper <==> NoPartLost(upper)
  {
    var parts := Split(upper, '/');
    PartsAreUnique(upper, p, b, s);
    JoinSplit(upper, '/');
    if |parts| == 2 {
      assert parts[1..] == [parts[1]];
      RecomposeTwo(upper, parts[0], parts[1]);
    } else if |parts| > 2 {
      assert parts[1..][0] == parts[1] && parts[1..][1..] == parts[2..];
      JoinEmpty(parts[2..]);
      RecomposeThree(upper, parts[0], parts[1], Join(parts[2..], '/'));
    }
  }

  lemma JoinEmpty(parts: seq<string>)
    requires parts != []
    ensures Join(parts, '/') == "" <==> |parts| == 1 && parts[0] == ""
  {
  }

  /** When all segments are non-empty, nothing is lost. */
  lemma NothingLost(upper: string, p: string, b: string, s: string)
    requires IsParts(upper, p, b, s)
    requires forall k :: 0 <= k < |Split(upper, '/')| ==> Split(upper, '/')[k] != ""
    ensures Recompose(p, b, s) == upper
  {
    RecomposeIff(upper, p, b, s);
  }

  /** A trailing slash is lost. */
  lemma TrailingSlashLost()
    ensures IsParts("W1AW/", "", "W1AW", "") && Recompose("", "W1AW", "") == "W1AW"
  {
    assert "W1AW" + ['/'] + "" == "W1AW/";
  }

  // ---------- documented examples ----------

  lemma LooksLikeAt(s: string, digit: nat, letter: nat)
    requires |s| >= 3 && digit < |s| && letter < |s| && IsDigit(s[digit]) && IsLetter(s[letter])
    ensures LooksLike(s)
  {
  }

  lemma DocumentedParts()
    ensures IsParts("VK9/W5XXX", "VK9", "W5XXX", "")
    ensures IsParts("W5XXX/P", "", "W5XXX", "P")
  {
    LooksLikeAt("W5XXX", 1, 0);
    assert "VK9" + ['/'] + "W5XXX" == "VK9/W5XXX";
    assert "W5XXX" + ['/'] + "P" == "W5XXX/P";
  }

  /** The prefix ends at the first digit behind the first letter. */
  lemma WpxPrefixAt(call: string, letter: nat, n: nat)
    requires letter < n - 1 < |call| && IsLetter(call[letter]) && IsDigit(call[n - 1])
    requires forall j :: 0 <= j < letter ==> !IsLetter(call[j])
    requires forall k :: letter < k < n - 1 ==> !IsDigit(call[k])
    ensures IsWpxPrefix(call, call[..n])
  {
    forall k | 0 <= k < n - 1
      ensures !DigitAfterLetter(call, k)
    {
      assert k <= letter ==> forall j :: 0 <= j < k ==> !IsLetter(call[j]);
    }
  }

  lemma DocumentedPrefixes()
    ensures IsWpxPrefix("W1AW", "W1") && IsWpxPrefix("VE3XYZ", "VE3")
    ensures IsWpxPrefix("3W3RR", "3W3") && IsWpxPrefix("9A1AA", "9A1")
  {
    WpxPrefixAt("W1AW", 0, 2);
    WpxPrefixAt("VE3XYZ", 0, 3);
    WpxPrefixAt("3W3RR", 1, 3);
    WpxPrefixAt("9A1AA", 1, 3);
    assert "W1AW"[..2] == "W1" && "VE3XYZ"[..3] == "VE3" && "3W3RR"[..3] == "3W3" && "9A1AA"[..3] == "9A1";
  }
}
