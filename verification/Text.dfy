/** The two string operations that names and codec identifiers go through. */
module Text {

  /** The characters with the Unicode property White_Space. */
  predicate IsWhitespace(c: char) {
    var x := c as int;
    || 0x09 <= x <= 0x0D || x == 0x20 || x == 0x85 || x == 0xA0 || x == 0x1680
    || 0x2000 <= x <= 0x200A || x == 0x2028 || x == 0x2029 || x == 0x202F || x == 0x205F || x == 0x3000
  }

  function TrimStart(s: string): string {
    if s != "" && IsWhitespace(s[0]) then TrimStart(s[1..]) else s
  }

  function TrimEnd(s: string): string {
    if s != "" && IsWhitespace(s[|s| - 1]) then TrimEnd(s[..|s| - 1]) else s
  }

  function Trim(s: string): string {
    TrimEnd(TrimStart(s))
  }

  function LowercaseAscii(c: char): char {
    if 'A' <= c <= 'Z' then (c as int + 32) as char else c
  }

  function ToAsciiLowercase(s: string): (r: string)
    ensures |r| == |s|
  {
    seq(|s|, i requires 0 <= i < |s| => LowercaseAscii(s[i]))
  }

  // ----- What trimming and ignoring case mean -----

  predicate IsTrimmed(s: string) {
    s == "" || (!IsWhitespace(s[0]) && !IsWhitespace(s[|s| - 1]))
  }

  lemma {:induction false} TrimEndIsTrimmed(s: string)
    ensures var r := TrimEnd(s);
            r <= s && (r == "" || !IsWhitespace(r[|r| - 1]))
  {
    if s != "" && IsWhitespace(s[|s| - 1]) {
      TrimEndIsTrimmed(s[..|s| - 1]);
    }
  }

  lemma {:induction false} TrimStartIsTrimmed(s: string)
    ensures var r := TrimStart(s);
            r == "" || !IsWhitespace(r[0])
  {
    if s != "" && IsWhitespace(s[0]) {
      TrimStartIsTrimmed(s[1..]);
    }
  }

  lemma TrimIsTrimmed(s: string)
    ensures IsTrimmed(Trim(s))
  {
    TrimStartIsTrimmed(s);
    TrimEndIsTrimmed(TrimStart(s));
  }

  predicate AllWhitespace(s: string) {
    forall i :: 0 <= i < |s| ==> IsWhitespace(s[i])
  }

  /** A text without space at its ends is what is left when it is trimmed, whatever space surrounds
      it; with the lemma below this says what trimming is. */
  lemma TrimTakesSpaceAway(before: string, core: string, after: string)
    requires AllWhitespace(before) && AllWhitespace(after) && IsTrimmed(core)
    ensures Trim(before + core + after) == core
  {
    TrimStartSkips(before, core + after);
    assert before + core + after == before + (core + after);
    if core == "" {
      assert core + after == after;
      TrimStartSkips(after, "");
      assert after + "" == after;
    } else {
      assert (core + after)[0] == core[0];
      TrimEndSkips(core, after);
    }
  }

  lemma {:induction false} TrimStartSkips(before: string, rest: string)
    requires AllWhitespace(before)
    ensures TrimStart(before + rest) == TrimStart(rest)
  {
    if before == "" {
      assert before + rest == rest;
    } else {
      TrimStartSkips(before[1..], rest);
      assert (before + rest)[1..] == before[1..] + rest;
    }
  }

  lemma {:induction false} TrimEndSkips(core: string, after: string)
    requires AllWhitespace(after) && core != "" && IsTrimmed(core)
    ensures TrimEnd(core + after) == core
  {
    var n := |after| - 1;
    if after == "" {
      assert core + after == core;
    } else {
      TrimEndSkips(core, after[..n]);
      assert (core + after)[..|core| + n] == core + after[..n];
    }
  }

  /** Every text is its trimmed core with space around it. */
  lemma TrimLeavesCore(s: string) returns (before: string, after: string)
    ensures s == before + Trim(s) + after
    ensures AllWhitespace(before) && AllWhitespace(after) && IsTrimmed(Trim(s))
  {
    TrimIsTrimmed(s);
    before := TrimStartSplits(s);
    after := TrimEndSplits(TrimStart(s));
    assert before + (Trim(s) + after) == before + Trim(s) + after;
  }

  lemma {:induction false} TrimStartSplits(s: string) returns (before: string)
    ensures s == before + TrimStart(s) && AllWhitespace(before)
  {
    if s == "" || !IsWhitespace(s[0]) {
      before := "";
    } else {
      var more := TrimStartSplits(s[1..]);
      before := [s[0]] + more;
      assert s == [s[0]] + s[1..];
    }
  }

  lemma {:induction false} TrimEndSplits(s: string) returns (after: string)
    ensures s == TrimEnd(s) + after && AllWhitespace(after)
  {
    var n := |s| - 1;
    if s == "" || !IsWhitespace(s[n]) {
      after := "";
    } else {
      var more := TrimEndSplits(s[..n]);
      after := more + [s[n]];
      assert s == s[..n] + [s[n]];
    }
  }

  /** The same letter, in whatever case, for the letters A to Z only. */
  predicate SameLetter(a: char, b: char) {
    || a == b
    || ('A' <= a <= 'Z' && b as int == a as int + 32)
    || ('A' <= b <= 'Z' && a as int == b as int + 32)
  }

  predicate SameLetters(a: string, b: string) {
    |a| == |b| && forall i :: 0 <= i < |a| ==> SameLetter(a[i], b[i])
  }

  lemma LowercaseIsSameLetter(a: char, b: char)
    ensures LowercaseAscii(a) == LowercaseAscii(b) <==> SameLetter(a, b)
  {
  }

  lemma LowercaseIgnoresCase(a: string, b: string)
    ensures ToAsciiLowercase(a) == ToAsciiLowercase(b) <==> SameLetters(a, b)
  {
    forall i | 0 <= i < |a| && i < |b|
      ensures ToAsciiLowercase(a)[i] == ToAsciiLowercase(b)[i] <==> SameLetter(a[i], b[i])
    {
      LowercaseIsSameLetter(a[i], b[i]);
    }
    if SameLetters(a, b) {
      assert ToAsciiLowercase(a) == ToAsciiLowercase(b);
    }
  }
}
