/**
 * The pieces of Rust's `str` and integer formatting that the tool relies on: splitting
 * (`str::split`, `str::lines`), prefix tests (`str::starts_with`), substitution
 * (`str::replace`) and decimal rendering (`u64::to_string`).
 */
module Text {

  /** Position of the first `c` in `s`, or `|s|` when `s` has none. */
  function IndexOf(s: string, c: char): (k: nat)
    ensures k <= |s|
    ensures k < |s| ==> s[k] == c
    ensures c !in s[..k]
  {
    if s == [] then 0
    else if s[0] == c then 0
    else
      assert s[..1 + IndexOf(s[1..], c)] == [s[0]] + s[1..][..IndexOf(s[1..], c)];
      1 + IndexOf(s[1..], c)
  }

  /** `str::split` on one character: always at least one part (the empty string gives `[""]`). */
  function Split(s: string, c: char): (parts: seq<string>)
    ensures |parts| > 0
    decreases |s|
  {
    var k := IndexOf(s, c);
    if k == |s| then [s] else [s[..k]] + Split(s[k + 1..], c)
  }

  /** No part of a split contains the separator. */
  lemma {:induction false} SplitPartsLackSeparator(s: string, c: char)
    ensures forall i :: 0 <= i < |Split(s, c)| ==> c !in Split(s, c)[i]
    decreases |s|
  {
    var k := IndexOf(s, c);
    if k < |s| {
      SplitPartsLackSeparator(s[k + 1..], c);
    }
  }

  /** The parts separated by `c`; the inverse of `Split`. */
  function Join(parts: seq<string>, c: char): (s: string)
    requires |parts| > 0
  {
    if |parts| == 1 then parts[0] else parts[0] + [c] + Join(parts[1..], c)
  }

  /** Splitting around one separator splits both sides independently. */
  lemma {:induction false} SplitAround(a: string, b: string, c: char)
    ensures Split(a + [c] + b, c) == Split(a, c) + Split(b, c)
    decreases |a|
  {
    var k := IndexOf(a, c);
    if k == |a| {
      assert a[..k] == a;
      SplitAroundFirst(a, b, c);
    } else {
      var rest := a[k + 1..];
      SplitAroundLater(a, b, c, k);
      SplitAround(rest, b, c);
      ConsAppend(Split(a + [c] + b, c), Split(a, c), [a[..k]], Split(rest + [c] + b, c), Split(rest, c), Split(b, c));
    }
  }

  /** Regrouping of sequence concatenations, kept separate so the split proofs stay small. */
  lemma ConsAppend<T>(x: seq<T>, y: seq<T>, p: seq<T>, u: seq<T>, q: seq<T>, r: seq<T>)
    requires x == p + u && u == q + r && y == p + q
    ensures x == y + r
  {
  }

  /** The separator added is the first one: it ends the first part. */
  lemma SplitAroundFirst(a: string, b: string, c: char)
    requires c !in a
    ensures Split(a + [c] + b, c) == [a] + Split(b, c)
  {
    var s := a + [c] + b;
    assert s[..|a|] == a;
    IndexOfFirst(s, c, |a|);
    assert s[|a| + 1..] == b;
  }

  /** `a` has a separator of its own at `k`: the first part ends there. */
  lemma SplitAroundLater(a: string, b: string, c: char, k: nat)
    requires k == IndexOf(a, c) && k < |a|
    ensures Split(a + [c] + b, c) == [a[..k]] + Split(a[k + 1..] + [c] + b, c)
    ensures Split(a, c) == [a[..k]] + Split(a[k + 1..], c)
  {
    var s := a + [c] + b;
    assert s[..k] == a[..k];
    IndexOfFirst(s, c, k);
    assert s[k + 1..] == a[k + 1..] + [c] + b;
  }

  /** `IndexOf` finds the first occurrence: any position holding `c` with none before it. */
  lemma IndexOfFirst(s: string, c: char, k: nat)
    requires k <= |s| && c !in s[..k] && (k < |s| ==> s[k] == c)
    ensures IndexOf(s, c) == k
  {
  }

  /** A text without the separator is one part. */
  lemma SplitWhole(s: string, c: char)
    requires c !in s
    ensures Split(s, c) == [s]
  {
    IndexOfFirst(s, c, |s|);
  }

  /** Round trip: splitting joined parts that do not contain the separator gives them back. */
  lemma {:induction false} SplitJoin(parts: seq<string>, c: char)
    requires |parts| > 0
    requires forall i :: 0 <= i < |parts| ==> c !in parts[i]
    ensures Split(Join(parts, c), c) == parts
  {
    var first, tail := parts[0], parts[1..];
    SplitWhole(first, c);
    if |parts| > 1 {
      assert Join(parts, c) == first + [c] + Join(tail, c);
      SplitAround(first, Join(tail, c), c);
      SplitJoin(tail, c);
      assert parts == [first] + tail;
    }
  }

  /** Joining one more part at the end. */
  lemma {:induction false} JoinSnoc(parts: seq<string>, x: string, c: char)
    requires |parts| > 0
    ensures Join(parts + [x], c) == Join(parts, c) + [c] + x
    decreases |parts|
  {
    if |parts| > 1 {
      assert (parts + [x])[1..] == parts[1..] + [x];
      JoinSnoc(parts[1..], x, c);
    }
  }

  /** Every string followed by a newline: what a writer loop of `push_str(s); push('\n')` produces. */
  function Terminated(lines: seq<string>): string
  {
    if lines == [] then "" else Terminated(lines[..|lines| - 1]) + lines[|lines| - 1] + "\n"
  }

  /** Newline-terminated lines are the lines joined by newlines, followed by one empty part. */
  lemma {:induction false} TerminatedIsJoin(lines: seq<string>)
    ensures Terminated(lines) == Join(lines + [""], '\n')
  {
    if lines != [] {
      var front, x := lines[..|lines| - 1], lines[|lines| - 1];
      var jAll := Join(lines + [""], '\n');
      if front == [] {
        assert lines + [""] == [x, ""];
      } else {
        var j, jx := Join(front, '\n'), Join(front + [x], '\n');
        assert Terminated(front) == j + "\n" + "" by {
          TerminatedIsJoin(front);
          JoinSnoc(front, "", '\n');
        }
        assert jx == j + "\n" + x by {
          JoinSnoc(front, x, '\n');
        }
        assert jAll == jx + "\n" + "" by {
          assert lines + [""] == front + [x] + [""];
          JoinSnoc(front + [x], "", '\n');
        }
        NewlineStep(Terminated(lines), Terminated(front), j, x, jx, jAll);
      }
    }
  }

  /** Regrouping step of `TerminatedIsJoin`: one more terminated line extends the join by that line. */
  lemma NewlineStep(t: string, tFront: string, j: string, x: string, jx: string, jAll: string)
    requires t == tFront + x + "\n" && tFront == j + "\n" + ""
    requires jx == j + "\n" + x && jAll == jx + "\n" + ""
    ensures t == jAll
  {
  }

  /** Splitting newline-terminated, newline-free lines on `'\n'` gives them back and one trailing `""`. */
  lemma SplitTerminated(lines: seq<string>)
    requires forall i :: 0 <= i < |lines| ==> '\n' !in lines[i]
    ensures Split(Terminated(lines), '\n') == lines + [""]
  {
    var parts := lines + [""];
    SnocEmptyLacks(lines, '\n');
    TerminatedIsJoin(lines);
    SplitJoin(parts, '\n');
  }

  /** Appending an empty part adds no character. */
  lemma SnocEmptyLacks(lines: seq<string>, c: char)
    requires forall i :: 0 <= i < |lines| ==> c !in lines[i]
    ensures forall i :: 0 <= i < |lines + [""]| ==> c !in (lines + [""])[i]
  {
  }

  /** Position of the last `c` in `s`, or `-1` when `s` has none. */
  function LastIndexOf(s: string, c: char): (k: int)
    ensures -1 <= k < |s|
    ensures k >= 0 ==> s[k] == c && c !in s[k + 1..]
    ensures k < 0 ==> c !in s
  {
    if s == [] then -1
    else if s[|s| - 1] == c then |s| - 1
    else
      var k := LastIndexOf(s[..|s| - 1], c);
      assert k >= 0 ==> s[k + 1..] == s[..|s| - 1][k + 1..] + [s[|s| - 1]];
      assert s == s[..|s| - 1] + [s[|s| - 1]];
      k
  }

  /** `LastIndexOf` finds the last occurrence: any position holding `c` with none after it. */
  lemma LastIndexOfLast(s: string, c: char, k: nat)
    requires k < |s| && s[k] == c && c !in s[k + 1..]
    ensures LastIndexOf(s, c) == k
  {
  }

  /** `str::starts_with`. */
  predicate StartsWith(s: string, prefix: string)
  {
    |prefix| <= |s| && s[..|prefix|] == prefix
  }

  /** Removes one `'\r'` that ended a line before its `'\n'`. */
  function StripCr(line: string): string
  {
    if |line| > 0 && line[|line| - 1] == '\r' then line[..|line| - 1] else line
  }

  /**
   * `str::lines`: the pieces between `'\n'` characters, each stripped of one `'\r'` that
   * preceded its `'\n'`; a final `'\n'` does not start another line, and the empty string has
   * no lines. A last line with no `'\n'` after it keeps a trailing `'\r'`.
   */
  function Lines(s: string): seq<string>
    decreases |s|
  {
    if s == [] then []
    else
      var k := IndexOf(s, '\n');
      if k == |s| then [s] else [StripCr(s[..k])] + Lines(s[k + 1..])
  }

  /** A first line ended by `'\n'`, then the lines of the rest. */
  lemma LinesCons(x: string, rest: string)
    requires '\n' !in x
    ensures Lines(x + "\n" + rest) == [StripCr(x)] + Lines(rest)
  {
    var s := x + "\n" + rest;
    IndexOfFirst(s, '\n', |x|) by { assert s[..|x|] == x; }
    assert s[..|x|] == x && s[|x| + 1..] == rest;
  }

  /** `Terminated` prepends one line at the front as well. */
  lemma {:induction false} TerminatedCons(x: string, lines: seq<string>)
    ensures Terminated([x] + lines) == x + "\n" + Terminated(lines)
    decreases |lines|
  {
    if lines != [] {
      var front := lines[..|lines| - 1];
      assert ([x] + lines)[..|lines|] == [x] + front;
      TerminatedCons(x, front);
    }
  }

  /**
   * Reading back what a line writer produced: `str::lines` of newline-terminated lines gives
   * the lines again, provided none contains `'\n'` or ends in `'\r'`.
   */
  lemma {:induction false} LinesOfTerminated(lines: seq<string>)
    requires forall i :: 0 <= i < |lines| ==> '\n' !in lines[i] && StripCr(lines[i]) == lines[i]
    ensures Lines(Terminated(lines)) == lines
    decreases |lines|
  {
    if lines != [] {
      var x, rest := lines[0], lines[1..];
      assert lines == [x] + rest;
      TerminatedCons(x, rest);
      LinesCons(x, Terminated(rest));
      LinesOfTerminated(rest);
    }
  }

  /** `pat` occurs in `s` starting at position `i`. */
  predicate OccursAt(s: string, pat: string, i: nat)
  {
    i + |pat| <= |s| && s[i..i + |pat|] == pat
  }

  predicate Occurs(s: string, pat: string)
  {
    exists i: nat | i <= |s| :: OccursAt(s, pat, i)
  }

  /**
   * `str::replace`: every occurrence of `pat`, found from left to right without overlap, is
   * replaced by `rep`; the inserted text is not searched again.
   */
  function Replace(s: string, pat: string, rep: string): string
    requires |pat| > 0
    decreases |s|
  {
    if |s| < |pat| then s
    else if s[..|pat|] == pat then rep + Replace(s[|pat|..], pat, rep)
    else [s[0]] + Replace(s[1..], pat, rep)
  }

  /** Text without an occurrence of the pattern is left as it is. */
  lemma {:induction false} ReplaceAbsent(s: string, pat: string, rep: string)
    requires |pat| > 0 && !Occurs(s, pat)
    ensures Replace(s, pat, rep) == s
    decreases |s|
  {
    if |pat| <= |s| {
      assert !OccursAt(s, pat, 0);
      assert !Occurs(s[1..], pat) by {
        forall i: nat | OccursAt(s[1..], pat, i) ensures OccursAt(s, pat, i + 1) {
          assert s[1..][i..i + |pat|] == s[i + 1..i + 1 + |pat|];
        }
      }
      ReplaceAbsent(s[1..], pat, rep);
    }
  }

  /** A pattern with a character that the text lacks does not occur in it. */
  lemma MissingChar(s: string, pat: string, c: char)
    requires c in pat && c !in s
    ensures !Occurs(s, pat)
  {
  }

  /** The pattern itself is replaced by the replacement. */
  lemma ReplaceWhole(pat: string, rep: string)
    requires |pat| > 0
    ensures Replace(pat, pat, rep) == rep
  {
    assert pat[|pat|..] == [];
  }

  /**
   * Replacing in a concatenation replaces in each half, when no occurrence can straddle the
   * joint: the last character of `a` or the first of `b` is not in the pattern.
   */
  lemma {:induction false} ReplaceConcat(a: string, b: string, pat: string, rep: string)
    requires |pat| > 0
    requires a == [] || b == [] || a[|a| - 1] !in pat || b[0] !in pat
    ensures Replace(a + b, pat, rep) == Replace(a, pat, rep) + Replace(b, pat, rep)
    decreases |a|, 1
  {
    if a == [] {
      assert a + b == b;
    } else if b == [] {
      assert a + b == a;
    } else if |a + b| < |pat| {
      assert Replace(a, pat, rep) == a && Replace(b, pat, rep) == b;
    } else if (a + b)[..|pat|] == pat {
      ReplaceConcatAtMatch(a, b, pat, rep);
    } else {
      ReplaceConcatNoMatch(a, b, pat, rep);
    }
  }

  /** `ReplaceConcat` when the pattern starts the concatenation: it lies within `a`. */
  lemma {:induction false} ReplaceConcatAtMatch(a: string, b: string, pat: string, rep: string)
    requires |pat| > 0 && a != [] && b != [] && (a[|a| - 1] !in pat || b[0] !in pat)
    requires |pat| <= |a + b| && (a + b)[..|pat|] == pat
    ensures Replace(a + b, pat, rep) == Replace(a, pat, rep) + Replace(b, pat, rep)
    decreases |a|, 0
  {
    var n := |pat|;
    if |a| < n {
      PrefixChar(a + b, pat, |a| - 1);
      PrefixChar(a + b, pat, |a|);
      assert false;
    }
    assert a[..n] == pat;
    assert (a + b)[n..] == a[n..] + b;
    assert Replace(a + b, pat, rep) == rep + Replace(a[n..] + b, pat, rep);
    assert Replace(a, pat, rep) == rep + Replace(a[n..], pat, rep);
    ReplaceConcat(a[n..], b, pat, rep);
  }

  /** Every character of a prefix equal to `pat` is a character of `pat`. */
  lemma PrefixChar(s: string, pat: string, i: nat)
    requires |pat| <= |s| && s[..|pat|] == pat && i < |pat|
    ensures s[i] in pat
  {
    assert pat[i] == s[i];
  }

  /** `ReplaceConcat` when the concatenation does not start with the pattern. */
  lemma {:induction false} ReplaceConcatNoMatch(a: string, b: string, pat: string, rep: string)
    requires |pat| > 0 && a != [] && b != [] && (a[|a| - 1] !in pat || b[0] !in pat)
    requires |pat| <= |a + b| && (a + b)[..|pat|] != pat
    ensures Replace(a + b, pat, rep) == Replace(a, pat, rep) + Replace(b, pat, rep)
    decreases |a|, 0
  {
    var n, tail := |pat|, a[1..];
    assert Replace(a + b, pat, rep) == [a[0]] + Replace(tail + b, pat, rep) by {
      assert (a + b)[1..] == tail + b;
    }
    assert Replace(a, pat, rep) == [a[0]] + Replace(tail, pat, rep) by {
      if n <= |a| {
        assert a[..n] == (a + b)[..n];
      } else {
        assert a == [a[0]] + tail;
      }
    }
    ReplaceConcat(tail, b, pat, rep);
    ConsAppend(Replace(a + b, pat, rep), Replace(a, pat, rep), [a[0]], Replace(tail + b, pat, rep),
               Replace(tail, pat, rep), Replace(b, pat, rep));
  }

  /** `x` ends with a character that is not in `pat`: no occurrence can start in `x` and end after it. */
  predicate EndsOutside(x: string, pat: string)
  {
    |x| > 0 && x[|x| - 1] !in pat
  }

  /** `x` starts with a character that is not in `pat`: no occurrence can start before `x` and end in it. */
  predicate StartsOutside(x: string, pat: string)
  {
    |x| > 0 && x[0] !in pat
  }

  /** An occurrence with pattern-free characters on either side is replaced in place. */
  lemma ReplaceSlot(a: string, pat: string, c: string, rep: string)
    requires |pat| > 0
    requires a == [] || a[|a| - 1] !in pat
    requires c == [] || c[0] !in pat
    ensures Replace(a + pat + c, pat, rep) == Replace(a, pat, rep) + rep + Replace(c, pat, rep)
  {
    assert a + pat + c == a + (pat + c);
    ReplaceConcat(a, pat + c, pat, rep);
    ReplaceAtStart(pat, c, rep);
  }

  /** A text that starts with the pattern: the replacement, then the rest replaced. */
  lemma ReplaceAtStart(pat: string, c: string, rep: string)
    requires |pat| > 0
    ensures Replace(pat + c, pat, rep) == rep + Replace(c, pat, rep)
  {
    var s := pat + c;
    assert s[..|pat|] == pat && s[|pat|..] == c;
  }

  /** Replacing in `m` framed by pattern-free text leaves the frame as it is. */
  lemma ReplaceBetween(x: string, m: string, y: string, pat: string, rep: string)
    requires |pat| > 0 && !Occurs(x, pat) && !Occurs(y, pat)
    requires x == [] || x[|x| - 1] !in pat
    requires y == [] || y[0] !in pat
    ensures Replace(x + m + y, pat, rep) == x + Replace(m, pat, rep) + y
  {
    assert x + m + y == x + (m + y);
    ReplaceConcat(m, y, pat, rep);
    ReplaceConcat(x, m + y, pat, rep);
    ReplaceAbsent(x, pat, rep);
    ReplaceAbsent(y, pat, rep);
  }

  /** A single occurrence framed by pattern-free text is replaced by the replacement. */
  lemma ReplaceOnce(x: string, pat: string, y: string, rep: string)
    requires |pat| > 0 && !Occurs(x, pat) && !Occurs(y, pat)
    requires x == [] || x[|x| - 1] !in pat
    requires y == [] || y[0] !in pat
    ensures Replace(x + pat + y, pat, rep) == x + rep + y
  {
    ReplaceBetween(x, pat, y, pat, rep);
    ReplaceWhole(pat, rep);
  }

  /** Replacement introduces no character that neither the text nor the replacement has. */
  lemma {:induction false} ReplaceKeepsOut(s: string, pat: string, rep: string, c: char)
    requires |pat| > 0 && c !in s && c !in rep
    ensures c !in Replace(s, pat, rep)
    decreases |s|
  {
    if |pat| <= |s| {
      if s[..|pat|] == pat {
        ReplaceKeepsOut(s[|pat|..], pat, rep, c);
      } else {
        ReplaceKeepsOut(s[1..], pat, rep, c);
      }
    }
  }

  /** `u64::to_string`: the decimal digits of `n`, most significant first, with no leading zero. */
  function Decimal(n: nat): (r: string)
    ensures |r| > 0 && (r[0] == '0' ==> n == 0)
    ensures forall i :: 0 <= i < |r| ==> '0' <= r[i] <= '9'
  {
    if n < 10 then [Digit(n)] else Decimal(n / 10) + [Digit(n % 10)]
  }

  function Digit(d: nat): (c: char)
    requires d < 10
    ensures '0' <= c <= '9'
  {
    ['0', '1', '2', '3', '4', '5', '6', '7', '8', '9'][d]
  }

  /** The number a string of decimal digits denotes. */
  function DecimalValue(s: string): nat
    requires forall i :: 0 <= i < |s| ==> '0' <= s[i] <= '9'
  {
    if s == [] then 0 else DecimalValue(s[..|s| - 1]) * 10 + (s[|s| - 1] as int - '0' as int)
  }

  /** Reading the decimal rendering of `n` gives back `n`. */
  lemma {:induction false} DecimalRoundTrip(n: nat)
    ensures DecimalValue(Decimal(n)) == n
  {
    if n >= 10 {
      DecimalRoundTrip(n / 10);
      var s := Decimal(n);
      assert s[..|s| - 1] == Decimal(n / 10);
      assert Digit(n % 10) as int - '0' as int == n % 10;
    } else {
      assert Digit(n) as int - '0' as int == n;
    }
  }
}
