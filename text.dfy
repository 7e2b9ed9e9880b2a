/** The Python string and sequence built-ins the pipeline relies on, stated
    on `seq<char>`: `startswith`, `endswith`, `in`, `find`, `rfind`,
    `splitlines` (with `\n` as the only line boundary), slicing `s[:n]`,
    `str(int)` and truthiness of an optional string. */
module Text {
  import opened Wrappers

  function Min(a: int, b: int): int { if a <= b then a else b }
  function Max(a: int, b: int): int { if a <= b then b else a }

  /** Python's `s.startswith(prefix)`. */
  predicate StartsWith(s: string, prefix: string) {
    |prefix| <= |s| && s[..|prefix|] == prefix
  }

  /** Python's `s.endswith(suffix)`. */
  predicate EndsWith(s: string, suffix: string) {
    |suffix| <= |s| && s[|s| - |suffix|..] == suffix
  }

  /** `sub` occurs in `s` starting at index `i`. */
  ghost predicate OccursAt(s: string, sub: string, i: int) {
    0 <= i && i + |sub| <= |s| && s[i..i + |sub|] == sub
  }

  /** Python's `sub in s`. */
  predicate Contains(s: string, sub: string)
    decreases |s|
  {
    StartsWith(s, sub) || (s != [] && Contains(s[1..], sub))
  }

  /** An occurrence at index 0 is a prefix. */
  lemma OccursAtStart(s: string, sub: string)
    ensures OccursAt(s, sub, 0) <==> StartsWith(s, sub)
  {
    if |sub| <= |s| {
      assert s[0..|sub|] == s[..|sub|];
    }
  }

  /** An occurrence past index 0 is an occurrence in the tail, one index earlier. */
  lemma OccursInTail(s: string, sub: string, i: int)
    requires s != [] && 1 <= i
    ensures OccursAt(s, sub, i) <==> OccursAt(s[1..], sub, i - 1)
  {
    if i + |sub| <= |s| {
      assert s[1..][i - 1..i - 1 + |sub|] == s[i..i + |sub|];
    }
  }

  /** `sub in s` holds exactly when `sub` occurs at some index of `s`. */
  lemma {:induction false} ContainsIff(s: string, sub: string)
    ensures Contains(s, sub) <==> exists i :: OccursAt(s, sub, i)
    decreases |s|
  {
    OccursAtStart(s, sub);
    if StartsWith(s, sub) {
      assert OccursAt(s, sub, 0);
    } else if s != [] {
      ContainsIff(s[1..], sub);
      if Contains(s[1..], sub) {
        var i :| OccursAt(s[1..], sub, i);
        OccursInTail(s, sub, i + 1);
        assert OccursAt(s, sub, i + 1);
      } else {
        forall i | OccursAt(s, sub, i) ensures OccursAt(s[1..], sub, i - 1) {
          OccursInTail(s, sub, i);
        }
      }
    }
  }

  /** Python's `s.find(c)` for a one-character needle: the first index of
      `c`, or -1 when `c` does not occur. */
  function FindChar(s: string, c: char): (r: int)
    ensures -1 <= r < |s|
    ensures r == -1 <==> c !in s
    ensures 0 <= r ==> s[r] == c && c !in s[..r]
  {
    if s == [] then -1
    else if s[0] == c then 0
    else
      var k := FindChar(s[1..], c);
      assert s == [s[0]] + s[1..];
      if k == -1 then -1
      else
        assert s[..k + 1] == [s[0]] + s[1..][..k];
        k + 1
  }

  /** Python's `s.rfind(c)` for a one-character needle: the last index of
      `c`, or -1 when `c` does not occur. */
  function RFindChar(s: string, c: char): (r: int)
    ensures -1 <= r < |s|
    ensures r == -1 <==> c !in s
    ensures 0 <= r ==> s[r] == c && c !in s[r + 1..]
  {
    if s == [] then -1
    else if s[|s| - 1] == c then |s| - 1
    else
      var k := RFindChar(s[..|s| - 1], c);
      assert s == s[..|s| - 1] + [s[|s| - 1]];
      if k >= 0 then assert s[k + 1..] == s[..|s| - 1][k + 1..] + [s[|s| - 1]]; k
      else k
  }

  /** Python's `s.splitlines()`, taking `\n` as the only line boundary: the
      text between consecutive newlines, with no empty line after a final
      newline. */
  function SplitLines(s: string): (lines: seq<string>)
    ensures forall i :: 0 <= i < |lines| ==> '\n' !in lines[i]
    decreases |s|
  {
    if s == [] then []
    else
      var k := FindChar(s, '\n');
      if k == -1 then [s] else [s[..k]] + SplitLines(s[k + 1..])
  }

  /** Two newline-free texts joined by a newline split back into them; an
      empty second text leaves no line. */
  lemma SplitTwoLines(first: string, second: string)
    requires '\n' !in first && '\n' !in second
    ensures SplitLines(first + "\n" + second) == [first] + (if second == "" then [] else [second])
  {
    var s := first + "\n" + second;
    assert s[|first|] == '\n' && s[..|first|] == first;
    assert FindChar(s, '\n') == |first|;
    assert s[|first| + 1..] == second;
    if second != "" {
      assert FindChar(second, '\n') == -1;
    }
  }

  /** Every line followed by a newline. */
  function JoinLines(lines: seq<string>): string {
    if lines == [] then "" else lines[0] + "\n" + JoinLines(lines[1..])
  }

  /** The text with a final newline added when it has none. */
  function Terminated(s: string): string {
    if s == [] || s[|s| - 1] == '\n' then s else s + "\n"
  }

  /** One step of the split: the text before the first newline, then the
      lines after it. */
  lemma SplitLinesStep(s: string)
    requires '\n' in s
    ensures SplitLines(s) == [s[..FindChar(s, '\n')]] + SplitLines(s[FindChar(s, '\n') + 1..])
  {
  }

  lemma JoinLinesStep(head: string, rest: seq<string>)
    ensures JoinLines([head] + rest) == head + "\n" + JoinLines(rest)
  {
    assert ([head] + rest)[1..] == rest;
  }

  /** Terminating a text after a first line is terminating the rest. */
  lemma TerminatedStep(head: string, rest: string)
    ensures Terminated(head + "\n" + rest) == head + "\n" + Terminated(rest)
  {
    var s := head + "\n" + rest;
    if rest != [] {
      assert s[|s| - 1] == rest[|rest| - 1];
    }
  }

  /** Splitting loses nothing but the newlines: joining the lines back gives
      the text, with a final newline added when it had none. */
  lemma {:induction false} SplitLinesJoin(s: string)
    ensures JoinLines(SplitLines(s)) == Terminated(s)
    decreases |s|
  {
    if s != [] {
      if '\n' !in s {
        assert s[|s| - 1] in s;
        assert SplitLines(s) == [s];
        JoinLinesStep(s, []);
      } else {
        var k := FindChar(s, '\n');
        var head, rest := s[..k], s[k + 1..];
        assert s == head + "\n" + rest;
        calc {
          JoinLines(SplitLines(s));
          == { SplitLinesStep(s); }
          JoinLines([head] + SplitLines(rest));
          == { JoinLinesStep(head, SplitLines(rest)); }
          head + "\n" + JoinLines(SplitLines(rest));
          == { SplitLinesJoin(rest); }
          head + "\n" + Terminated(rest);
          == { TerminatedStep(head, rest); }
          Terminated(s);
        }
      }
    }
  }

  /** Python's slice `s[:n]`; a negative `n` drops that many elements from
      the end. */
  function Take<T>(s: seq<T>, n: int): (r: seq<T>)
    ensures r <= s
    ensures |r| == if n >= 0 then Min(n, |s|) else Max(|s| + n, 0)
  {
    if n >= 0 then (if n <= |s| then s[..n] else s)
    else if |s| + n >= 0 then s[..|s| + n]
    else []
  }

  predicate IsDigit(c: char) { '0' <= c <= '9' }

  function DigitChar(d: nat): (c: char)
    requires d < 10
    ensures IsDigit(c)
  {
    ('0' as int + d) as char
  }

  function DigitValue(c: char): nat {
    if IsDigit(c) then c as int - '0' as int else 0
  }

  /** Python's `str(n)` for a non-negative `n`: decimal digits, no leading zero. */
  function NatToString(n: nat): (s: string)
    ensures |s| >= 1 && forall i :: 0 <= i < |s| ==> IsDigit(s[i])
    decreases n
  {
    if n < 10 then [DigitChar(n)] else NatToString(n / 10) + [DigitChar(n % 10)]
  }

  /** Reads decimal digits back as a number. */
  function ParseNat(s: string): nat {
    if s == [] then 0 else ParseNat(s[..|s| - 1]) * 10 + DigitValue(s[|s| - 1])
  }

  lemma {:induction false} ParseNatToString(n: nat)
    ensures ParseNat(NatToString(n)) == n
    decreases n
  {
    var s := NatToString(n);
    if n >= 10 {
      ParseNatToString(n / 10);
      assert s[..|s| - 1] == NatToString(n / 10);
    }
  }

  /** Python's `str(n)` for an `int`. */
  function IntToString(n: int): (s: string)
    ensures ':' !in s
  {
    if n < 0 then "-" + NatToString(-n) else NatToString(n)
  }

  /** Python's `int(s)` on what `str` produces: an optional minus sign, then digits. */
  function ParseInt(s: string): int {
    if s != [] && s[0] == '-' then -(ParseNat(s[1..]) as int) else ParseNat(s)
  }

  /** `int(str(n)) == n`. */
  lemma IntToStringRoundTrip(n: int)
    ensures ParseInt(IntToString(n)) == n
  {
    if n < 0 {
      assert IntToString(n)[1..] == NatToString(-n);
      ParseNatToString(-n);
    } else {
      ParseNatToString(n);
    }
  }

  /** `str` on integers is injective. */
  lemma IntToStringInjective(a: int, b: int)
    requires IntToString(a) == IntToString(b)
    ensures a == b
  {
    IntToStringRoundTrip(a);
    IntToStringRoundTrip(b);
  }

  /** Python truthiness of an optional string: present and not empty. */
  predicate Truthy(s: Option<string>) {
    s.Some? && s.value != ""
  }
}
