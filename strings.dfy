/** The Python `str` operations the pipeline relies on, over `seq<char>`:
    prefix/suffix/substring tests, `strip`, `lower`, `replace`, `join`,
    `split(sep)[-1]`, decimal digits, code-point order, and `readlines`. */
module Strings {
  import Order

  type String = seq<char>

  predicate StartsWith(s: String, prefix: String)
  {
    |prefix| <= |s| && s[..|prefix|] == prefix
  }

  predicate EndsWith(s: String, suffix: String)
  {
    |suffix| <= |s| && s[|s| - |suffix|..] == suffix
  }

  /** `pattern` occurs in `s` starting at index `i`. */
  predicate OccursAt(s: String, pattern: String, i: nat)
  {
    i + |pattern| <= |s| && s[i..i + |pattern|] == pattern
  }

  /** Python's `pattern in s`. */
  predicate Contains(s: String, pattern: String)
  {
    exists i | 0 <= i <= |s| - |pattern| :: OccursAt(s, pattern, i)
  }

  /** A string that contains `pattern` contains every character of it; used
      to show that a string lacking one such character cannot contain it. */
  lemma ContainsChar(s: String, pattern: String, c: char)
    requires Contains(s, pattern) && c in pattern
    ensures c in s
  {
    var i :| 0 <= i <= |s| - |pattern| && OccursAt(s, pattern, i);
    var k :| 0 <= k < |pattern| && pattern[k] == c;
    assert s[i + k] == s[i..i + |pattern|][k];
  }

  /** A string lacking some character of `pattern` does not contain it. */
  lemma LackingCharNotContains(s: String, pattern: String, c: char)
    requires c in pattern && c !in s
    ensures !Contains(s, pattern)
  {
    var k :| 0 <= k < |pattern| && pattern[k] == c;
    forall i | 0 <= i <= |s| - |pattern| ensures !OccursAt(s, pattern, i) {
      assert s[i..i + |pattern|][k] == s[i + k];
    }
  }

  /** The characters Python's `str.isspace` accepts. */
  const Whitespace: set<char> :=
    (set c: char | ('\t' <= c <= '\r') || ('\U{1C}' <= c <= ' ') || ('\U{2000}' <= c <= '\U{200A}'))
    + {'\U{85}', '\U{A0}', '\U{1680}', '\U{2028}', '\U{2029}', '\U{202F}', '\U{205F}', '\U{3000}'}

  /** Python's `str.isspace` for one character. */
  predicate IsSpace(c: char)
  {
    c in Whitespace
  }

  function TrimStart(s: String): (r: String)
    ensures |r| <= |s| && r == s[|s| - |r|..]
    ensures r != [] ==> !IsSpace(r[0])
  {
    if s != [] && IsSpace(s[0]) then TrimStart(s[1..]) else s
  }

  function TrimEnd(s: String): (r: String)
    ensures |r| <= |s| && r == s[..|r|]
    ensures r != [] ==> !IsSpace(r[|r| - 1])
  {
    if s != [] && IsSpace(s[|s| - 1]) then TrimEnd(s[..|s| - 1]) else s
  }

  /** Python's `s.strip()`. */
  function Strip(s: String): String
  {
    TrimEnd(TrimStart(s))
  }

  /** Leading whitespace of `x + y` lies within `x` when `x` has a non-space
      character. */
  lemma {:induction false} TrimStartConcat(x: String, y: String, k: nat)
    requires k < |x| && !IsSpace(x[k])
    ensures TrimStart(x + y) == TrimStart(x) + y
  {
    if IsSpace(x[0]) {
      assert (x + y)[1..] == x[1..] + y;
      TrimStartConcat(x[1..], y, k - 1);
    }
  }

  /** A final newline after a non-space character is all `TrimEnd` removes. */
  lemma TrimEndNewline(head: String, tail: String)
    requires tail != [] && !IsSpace(tail[|tail| - 1])
    ensures TrimEnd(head + (tail + "\n")) == head + tail
  {
    assert (head + (tail + "\n"))[..|head| + |tail|] == head + tail;
  }

  /** Stripping `x + line` where `line` is `tail` and a newline removes the
      newline and the leading whitespace of `x` only, when `x` has a
      non-space character and `tail` ends with one. */
  lemma StripLine(x: String, k: nat, tail: String)
    requires k < |x| && !IsSpace(x[k])
    requires tail != [] && !IsSpace(tail[|tail| - 1])
    ensures Strip(x + (tail + "\n")) == TrimStart(x) + tail
  {
    TrimStartConcat(x, tail + "\n", k);
    TrimEndNewline(TrimStart(x), tail);
  }

  /** Python's `str.lower` restricted to ASCII letters. */
  function LowerChar(c: char): char
  {
    if 'A' <= c <= 'Z' then (c as int + 32) as char else c
  }

  function Lower(s: String): (r: String)
    ensures |r| == |s|
    ensures forall i :: 0 <= i < |s| ==> r[i] == LowerChar(s[i])
  {
    if s == [] then [] else [LowerChar(s[0])] + Lower(s[1..])
  }

  lemma LowerConcat(a: String, b: String)
    ensures Lower(a + b) == Lower(a) + Lower(b)
  {
    assert forall i | 0 <= i < |a + b| :: (a + b)[i] == if i < |a| then a[i] else b[i - |a|];
  }

  lemma LowerUnderscoreJoin(a: String, b: String)
    ensures Lower(a + "_" + b) == Lower(a) + "_" + Lower(b)
  {
    LowerConcat(a, "_" + b);
    LowerConcat("_", b);
  }

  /** Python's `s.replace(pattern, replacement)`: every non-overlapping
      occurrence, scanned left to right, is replaced. */
  function ReplaceAll(s: String, pattern: String, replacement: String): String
    requires pattern != []
    decreases |s|
  {
    if |s| < |pattern| then s
    else if s[..|pattern|] == pattern then replacement + ReplaceAll(s[|pattern|..], pattern, replacement)
    else [s[0]] + ReplaceAll(s[1..], pattern, replacement)
  }

  /** Replacing a pattern that does not occur changes nothing. */
  lemma {:induction false} ReplaceAllAbsent(s: String, pattern: String, replacement: String)
    requires pattern != []
    requires forall i :: 0 <= i < |s| ==> !OccursAt(s, pattern, i)
    ensures ReplaceAll(s, pattern, replacement) == s
    decreases |s|
  {
    if |s| >= |pattern| {
      assert !OccursAt(s, pattern, 0);
      forall i | 0 <= i < |s[1..]| ensures !OccursAt(s[1..], pattern, i) {
        assert !OccursAt(s, pattern, i + 1);
        if i + |pattern| <= |s[1..]| {
          assert s[1..][i..i + |pattern|] == s[i + 1..i + 1 + |pattern|];
        }
      }
      ReplaceAllAbsent(s[1..], pattern, replacement);
      assert s == [s[0]] + s[1..];
    }
  }

  /** Replacing every `c` by a text without `c` leaves no `c`. */
  lemma {:induction false} ReplaceAllRemovesChar(s: String, c: char, replacement: String)
    requires c !in replacement
    ensures c !in ReplaceAll(s, [c], replacement)
    decreases |s|
  {
    if |s| >= 1 {
      ReplaceAllRemovesChar(s[1..], c, replacement);
    }
  }

  /** Replacing the single character `c`: the text before its first
      occurrence is kept, the occurrence replaced, and the rest processed
      the same way. */
  lemma {:induction false} ReplaceAllFirstChar(before: String, c: char, after: String, replacement: String)
    requires c !in before
    ensures ReplaceAll(before + [c] + after, [c], replacement) == before + replacement + ReplaceAll(after, [c], replacement)
  {
    var s := before + [c] + after;
    if before == [] {
      assert s[..1] == [c] && s[1..] == after;
    } else {
      assert s[..1] == [before[0]] && s[..1] != [c];
      assert s[1..] == before[1..] + [c] + after;
      ReplaceAllFirstChar(before[1..], c, after, replacement);
    }
  }

  /** `replace(" ", "_")` on two space-free words. */
  lemma ReplaceSpaceBetweenWords(first: String, second: String)
    requires ' ' !in first && ' ' !in second
    ensures ReplaceAll(first + " " + second, " ", "_") == first + "_" + second
  {
    assert first + " " + second == first + [' '] + second;
    ReplaceAllFirstChar(first, ' ', second, "_");
    ReplaceAllAbsentChar(second, ' ', "_");
  }

  /** Replacing a character that does not occur changes nothing. */
  lemma {:induction false} ReplaceAllAbsentChar(s: String, c: char, replacement: String)
    requires c !in s
    ensures ReplaceAll(s, [c], replacement) == s
  {
    if s != [] {
      assert s[..1] == [s[0]] && s[..1] != [c];
      ReplaceAllAbsentChar(s[1..], c, replacement);
    }
  }

  /** Lower-casing keeps every character that is not an upper-case ASCII
      letter. */
  lemma LowerKeepsAbsentChar(s: String, c: char)
    requires c !in s && !('a' <= c <= 'z')
    ensures c !in Lower(s)
  {
    forall i | 0 <= i < |s| ensures Lower(s)[i] != c {
      assert s[i] != c;
    }
  }

  /** Python's `sep.join(parts)`. */
  function Join(parts: seq<String>, sep: String): String
  {
    if parts == [] then []
    else if |parts| == 1 then parts[0]
    else parts[0] + sep + Join(parts[1..], sep)
  }

  /** Python's `s.split(sep)[-1]` for a one-character separator: the text
      after the last `sep`, or all of `s` when there is none. */
  function LastToken(s: String, sep: char): String
  {
    if s == [] then []
    else if s[|s| - 1] == sep then []
    else LastToken(s[..|s| - 1], sep) + [s[|s| - 1]]
  }

  /** The last token is the text after the last separator: it holds no
      separator, and it is either all of `s` or preceded by one. */
  lemma {:induction false} LastTokenSpec(s: String, sep: char)
    ensures |LastToken(s, sep)| <= |s|
    ensures LastToken(s, sep) == s[|s| - |LastToken(s, sep)|..]
    ensures sep !in LastToken(s, sep)
    ensures |LastToken(s, sep)| == |s| || s[|s| - |LastToken(s, sep)| - 1] == sep
  {
    if s != [] && s[|s| - 1] != sep {
      var p := s[..|s| - 1];
      LastTokenSpec(p, sep);
      var t' := LastToken(p, sep);
      assert LastToken(s, sep) == t' + [s[|s| - 1]];
      assert s == p + [s[|s| - 1]];
      assert s[|s| - |t'| - 1..] == p[|p| - |t'|..] + [s[|s| - 1]];
    }
  }

  /** Appending a separator-free tail after a separator makes the tail the
      last token, whatever came before. */
  lemma {:induction false} LastTokenAfterSep(prefix: String, sep: char, tail: String)
    requires sep !in tail
    ensures LastToken(prefix + [sep] + tail, sep) == tail
    decreases |tail|
  {
    var s := prefix + [sep] + tail;
    if tail != [] {
      var t' := tail[..|tail| - 1];
      assert s[..|s| - 1] == prefix + [sep] + t';
      LastTokenAfterSep(prefix, sep, t');
      assert tail == t' + [tail[|tail| - 1]];
    }
  }

  // ---- decimal digits ----

  predicate IsDigit(c: char)
  {
    '0' <= c <= '9'
  }

  predicate AllDigits(s: String)
  {
    forall i :: 0 <= i < |s| ==> IsDigit(s[i])
  }

  function DigitChar(d: nat): char
    requires d < 10
  {
    ('0' as int + d) as char
  }

  /** The length of the longest run of digits at the start of `s`: what the
      greedy `\d+` of a regular expression consumes. */
  function LeadingDigits(s: String): (k: nat)
    ensures k <= |s| && AllDigits(s[..k])
    ensures k < |s| ==> !IsDigit(s[k])
  {
    if s != [] && IsDigit(s[0]) then 1 + LeadingDigits(s[1..]) else 0
  }

  /** Python's `int(d)` for a string of decimal digits. */
  function DigitsValue(d: String): nat
    requires AllDigits(d)
  {
    if d == [] then 0
    else DigitsValue(d[..|d| - 1]) * 10 + (d[|d| - 1] as int - '0' as int)
  }

  /** Python's `str(n)` for a natural number. */
  function NatToString(n: nat): (r: String)
    ensures r != [] && AllDigits(r)
  {
    if n < 10 then [DigitChar(n)] else NatToString(n / 10) + [DigitChar(n % 10)]
  }

  /** Python's `str(i)` for an integer. */
  function IntToString(i: int): String
  {
    if i < 0 then "-" + NatToString(-i) else NatToString(i)
  }

  /** Printing a number in decimal and parsing it back gives the number. */
  lemma {:induction false} DigitsValueOfNatToString(n: nat)
    ensures DigitsValue(NatToString(n)) == n
  {
    if n >= 10 {
      DigitsValueOfNatToString(n / 10);
      var s := NatToString(n);
      assert s[..|s| - 1] == NatToString(n / 10);
    }
  }

  /** A run of digits followed by a non-digit is exactly what `LeadingDigits`
      measures. */
  lemma {:induction false} LeadingDigitsOfDigitsThen(d: String, rest: String)
    requires AllDigits(d)
    requires rest != [] && !IsDigit(rest[0])
    ensures LeadingDigits(d + rest) == |d|
  {
    if d != [] {
      assert (d + rest)[1..] == d[1..] + rest;
      LeadingDigitsOfDigitsThen(d[1..], rest);
    }
  }

  // ---- code-point order, as Python compares `str` ----

  predicate StrLess(a: String, b: String)
  {
    if a == [] then b != []
    else if b == [] then false
    else if a[0] != b[0] then a[0] < b[0]
    else StrLess(a[1..], b[1..])
  }

  lemma {:induction false} StrLessIrreflexive(a: String)
    ensures !StrLess(a, a)
  {
    if a != [] {
      StrLessIrreflexive(a[1..]);
    }
  }

  lemma {:induction false} StrLessTransitive(a: String, b: String, c: String)
    requires StrLess(a, b) && StrLess(b, c)
    ensures StrLess(a, c)
  {
    if a != [] && b != [] && c != [] && a[0] == b[0] && b[0] == c[0] {
      StrLessTransitive(a[1..], b[1..], c[1..]);
    }
  }

  lemma {:induction false} StrLessTotal(a: String, b: String)
    ensures a == b || StrLess(a, b) || StrLess(b, a)
  {
    if a != [] && b != [] && a[0] == b[0] {
      StrLessTotal(a[1..], b[1..]);
      if a[1..] == b[1..] {
        assert a == [a[0]] + a[1..] && b == [b[0]] + b[1..];
      }
    }
  }

  lemma StrLessIsStrictTotalOrder()
    ensures Order.StrictTotalOrder(StrLess)
  {
    forall a ensures !StrLess(a, a) {
      StrLessIrreflexive(a);
    }
    forall a, b, c | StrLess(a, b) && StrLess(b, c) ensures StrLess(a, c) {
      StrLessTransitive(a, b, c);
    }
    forall a, b ensures a == b || StrLess(a, b) || StrLess(b, a) {
      StrLessTotal(a, b);
    }
  }

  // ---- text files as lines ----

  /** The length of the first line of `s`, its newline included. */
  function FirstLineLength(s: String): (k: nat)
    requires s != []
    ensures 1 <= k <= |s|
    ensures '\n' !in s[..k - 1]
    ensures k < |s| ==> s[k - 1] == '\n'
  {
    if s[0] == '\n' || |s| == 1 then 1
    else
      var k' := FirstLineLength(s[1..]);
      assert s[..k'] == [s[0]] + s[1..][..k' - 1];
      1 + k'
  }

  /** Python's `f.readlines()`: the lines of `s`, each keeping its `\n`; only
      the last may lack one. */
  function ReadLines(s: String): seq<String>
    decreases |s|
  {
    if s == [] then []
    else
      var k := FirstLineLength(s);
      [s[..k]] + ReadLines(s[k..])
  }

  /** Python's `f.writelines(lines)`: the lines written back to back. */
  function Concat(lines: seq<String>): String
  {
    if lines == [] then [] else lines[0] + Concat(lines[1..])
  }

  /** A line as `readlines` yields it: not empty, and a newline only at
      its end. */
  predicate IsLine(l: String)
  {
    l != [] && '\n' !in l[..|l| - 1]
  }

  predicate Terminated(l: String)
  {
    l != [] && l[|l| - 1] == '\n'
  }

  /** Writing one more text after some texts appends it. */
  lemma {:induction false} ConcatSnoc(texts: seq<String>, t: String)
    ensures Concat(texts + [t]) == Concat(texts) + t
  {
    if texts != [] {
      assert (texts + [t])[1..] == texts[1..] + [t];
      ConcatSnoc(texts[1..], t);
    } else {
      assert [t][1..] == [];
    }
  }

  /** Two texts one after the other. */
  lemma ConcatPair(a: String, b: String)
    ensures Concat([a, b]) == a + b
  {
    assert [a, b][1..] == [b] && [b][1..] == [];
    assert Concat([b]) == b + [];
  }

  /** A line without its newline followed by a line is one line. */
  lemma JoinedLine(a: String, b: String)
    requires IsLine(a) && !Terminated(a) && IsLine(b)
    ensures IsLine(a + b)
  {
    var j := a + b;
    assert j[..|j| - 1] == a + b[..|b| - 1];
    assert a == a[..|a| - 1] + [a[|a| - 1]];
  }

  /** Lines that `readlines` could have produced from one file. */
  predicate WellFormedLines(lines: seq<String>)
  {
    forall i :: 0 <= i < |lines| ==> IsLine(lines[i]) && (i < |lines| - 1 ==> Terminated(lines[i]))
  }

  /** Writing the lines read from a file gives the file back. */
  lemma {:induction false} ConcatReadLines(s: String)
    ensures Concat(ReadLines(s)) == s
    decreases |s|
  {
    if s != [] {
      var k := FirstLineLength(s);
      ConcatReadLines(s[k..]);
      assert s == s[..k] + s[k..];
    }
  }

  /** What `readlines` returns is well formed, and every line is terminated
      when the file ends with a newline. */
  lemma {:induction false} ReadLinesWellFormed(s: String)
    ensures WellFormedLines(ReadLines(s))
    ensures (s == [] || s[|s| - 1] == '\n') ==> forall l | l in ReadLines(s) :: Terminated(l)
    decreases |s|
  {
    if s != [] {
      var k := FirstLineLength(s);
      ReadLinesWellFormed(s[k..]);
      var ls := ReadLines(s);
      assert ls == [s[..k]] + ReadLines(s[k..]);
      assert s[..k][..k - 1] == s[..k - 1];
      if k == |s| {
        assert s[k..] == [];
      } else {
        assert s[k..][|s[k..]| - 1] == s[|s| - 1];
      }
    }
  }

  lemma {:induction false} FirstLineLengthOfLine(l: String, rest: String)
    requires IsLine(l)
    requires Terminated(l) || rest == []
    ensures FirstLineLength(l + rest) == |l|
  {
    if |l| > 1 {
      assert (l + rest)[0] == l[0] && l[0] in l[..|l| - 1];
      assert (l + rest)[1..] == l[1..] + rest;
      assert l[1..][..|l[1..]| - 1] == l[1..|l| - 1];
      FirstLineLengthOfLine(l[1..], rest);
    }
  }

  /** Reading back what was written gives the same lines, when they are
      well formed. */
  lemma {:induction false} ReadLinesConcat(lines: seq<String>)
    requires WellFormedLines(lines)
    ensures ReadLines(Concat(lines)) == lines
  {
    if lines != [] {
      var rest := Concat(lines[1..]);
      assert lines[1..] == [] ==> rest == [];
      FirstLineLengthOfLine(lines[0], rest);
      assert (lines[0] + rest)[..|lines[0]|] == lines[0];
      assert (lines[0] + rest)[|lines[0]|..] == rest;
      assert WellFormedLines(lines[1..]) by {
        forall i | 0 <= i < |lines[1..]| ensures IsLine(lines[1..][i]) && (i < |lines[1..]| - 1 ==> Terminated(lines[1..][i])) {
          assert lines[1..][i] == lines[i + 1];
        }
      }
      ReadLinesConcat(lines[1..]);
    }
  }
}
