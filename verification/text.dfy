/** The handful of Python `str` operations the program relies on:
    substring search, `strip()`, `join`, `replace` of one character,
    `'-' * n`, ASCII case folding and `split('\n')`. */
module Text {
  import opened Wrappers

  /** `p` occurs in `s` starting at index `i`. */
  predicate OccursAt(s: string, p: string, i: nat) {
    i + |p| <= |s| && s[i..i + |p|] == p
  }

  /** Index of the first occurrence of `p` in `s` at or after `from`,
      as Python's `s.find(p, from)` (with `None` for `-1`). */
  function FindFrom(s: string, p: string, from: nat): (r: Option<nat>)
    decreases |s| - from
    ensures r.Some? ==> from <= r.value && OccursAt(s, p, r.value)
    ensures r.Some? ==> forall k :: from <= k < r.value ==> !OccursAt(s, p, k)
    ensures r.None? ==> forall k :: from <= k ==> !OccursAt(s, p, k)
  {
    if from + |p| > |s| then None
    else if s[from..from + |p|] == p then Some(from)
    else FindFrom(s, p, from + 1)
  }

  /** Python's `s.endswith(t)`. */
  predicate EndsWith(s: string, t: string) {
    |t| <= |s| && s[|s| - |t|..] == t
  }

  /** `a` begins and `b` ends their concatenation. */
  lemma ConcatAffixes(a: string, b: string)
    ensures a <= a + b && EndsWith(a + b, b)
  {
    assert (a + b)[|a|..] == b;
  }

  /** The last two parts of `a + b + c` end it. */
  lemma EndsWithTail(a: string, b: string, c: string)
    ensures EndsWith(a + b + c, b + c)
  {
    assert a + b + c == a + (b + c);
    ConcatAffixes(a, b + c);
  }

  /** Python's `p in s`. */
  predicate Contains(s: string, p: string) {
    FindFrom(s, p, 0).Some?
  }

  /** `Contains` means what it says: some position holds an occurrence. */
  lemma ContainsIff(s: string, p: string)
    ensures Contains(s, p) <==> exists k: nat :: OccursAt(s, p, k)
  {
    if !Contains(s, p) {
      forall k: nat ensures !OccursAt(s, p, k) {
      }
    }
  }

  /** A position is an occurrence exactly when every character matches. */
  lemma OccursAtChars(s: string, p: string, i: nat, m: nat)
    requires OccursAt(s, p, i) && m < |p|
    ensures s[i + m] == p[m]
  {
    assert s[i..i + |p|][m] == s[i + m];
  }

  lemma NotContainsNoOccurrence(s: string, p: string, k: nat)
    requires !Contains(s, p)
    ensures !OccursAt(s, p, k)
  {
  }

  /** `FindFrom` reports `at` when `p` occurs there and nowhere between `from` and `at`. */
  lemma FindAt(s: string, p: string, from: nat, at: nat)
    requires from <= at && OccursAt(s, p, at)
    requires forall k :: from <= k < at ==> !OccursAt(s, p, k)
    ensures FindFrom(s, p, from) == Some(at)
  {
  }

  /** An occurrence inside a slice is an occurrence in the whole text, shifted. */
  lemma OccursInSlice(s: string, p: string, lo: nat, hi: nat, k: nat)
    requires lo <= k && k + |p| <= hi <= |s|
    ensures OccursAt(s[lo..hi], p, k - lo) <==> OccursAt(s, p, k)
  {
    var u := s[lo..hi];
    forall i | k - lo <= i < k - lo + |p| ensures u[i] == s[lo + i] {
    }
    assert u[k - lo..k - lo + |p|] == s[k..k + |p|];
  }

  /** No occurrence of `p` starts between `from` and `at` when the stretch between them
      holds none and `p` occurs at `at` with its first character not reappearing in it,
      so no occurrence can start in the stretch and run into `at`. */
  lemma NoOccurrenceBefore(s: string, p: string, from: nat, at: nat)
    requires from <= at && OccursAt(s, p, at)
    requires !Contains(s[from..at], p)
    requires |p| > 0 && p[0] !in p[1..]
    ensures forall k :: from <= k < at ==> !OccursAt(s, p, k)
  {
    forall k | from <= k < at ensures !OccursAt(s, p, k) {
      if k + |p| <= at {
        NotContainsNoOccurrence(s[from..at], p, k - from);
        OccursInSlice(s, p, from, at, k);
      } else {
        var m := at - k;
        assert s[at] == s[at..at + |p|][0];
        assert s[k..k + |p|][m] == s[at];
        assert p[m] == p[1..][m - 1];
      }
    }
  }

  /** `FindFrom` reports `at` under the conditions of `NoOccurrenceBefore`. */
  lemma FindAfterPlainGap(s: string, p: string, from: nat, at: nat)
    requires from <= at && OccursAt(s, p, at)
    requires !Contains(s[from..at], p)
    requires |p| > 0 && p[0] !in p[1..]
    ensures FindFrom(s, p, from) == Some(at)
  {
    NoOccurrenceBefore(s, p, from, at);
    FindAt(s, p, from, at);
  }

  /** No occurrence of `p` starts inside `x` in `w + x + y` when `x` holds none and the
      first character of `y` cannot continue a partial occurrence. */
  lemma NoOccurrenceInGap(w: string, x: string, y: string, p: string)
    requires !Contains(x, p)
    requires |y| > 0 && y[0] !in p[1..]
    ensures forall k :: |w| <= k < |w| + |x| ==> !OccursAt(w + x + y, p, k)
  {
    var s := w + x + y;
    forall k | |w| <= k < |w| + |x| ensures !OccursAt(s, p, k) {
      if k + |p| <= |w| + |x| {
        NotContainsNoOccurrence(x, p, k - |w|);
        assert s[k..k + |p|] == x[k - |w|..k - |w| + |p|];
      } else if k + |p| <= |s| {
        var m := |w| + |x| - k;
        assert s[k..k + |p|][m] == y[0];
        assert p[m] == p[1..][m - 1];
      }
    }
  }

  /** The mirror image of `NoOccurrenceInGap`: here it is the last character of `x`
      that cannot start a partial occurrence reaching into `y`. */
  lemma NoOccurrenceInGapByLast(w: string, x: string, y: string, p: string)
    requires !Contains(x, p)
    requires |x| > 0 && |p| > 0 && x[|x| - 1] !in p[..|p| - 1]
    ensures forall k :: |w| <= k < |w| + |x| ==> !OccursAt(w + x + y, p, k)
  {
    var s := w + x + y;
    forall k | |w| <= k < |w| + |x| ensures !OccursAt(s, p, k) {
      if k + |p| <= |w| + |x| {
        NotContainsNoOccurrence(x, p, k - |w|);
        assert s[k..k + |p|] == x[k - |w|..k - |w| + |p|];
      } else if k + |p| <= |s| {
        var m := |w| + |x| - 1 - k;
        assert s[k..k + |p|][m] == x[|x| - 1];
        assert p[m] == p[..|p| - 1][m];
      }
    }
  }

  /** No occurrence of `p` starts in a stretch of `s` free of `p`'s first character. */
  lemma NoOccurrenceWithoutFirstChar(s: string, p: string, lo: nat, hi: nat)
    requires |p| > 0 && hi <= |s|
    requires forall k :: lo <= k < hi ==> s[k] != p[0]
    ensures forall k :: lo <= k < hi ==> !OccursAt(s, p, k)
  {
    forall k | lo <= k < hi ensures !OccursAt(s, p, k) {
      if k + |p| <= |s| {
        assert s[k..k + |p|][0] == s[k];
      }
    }
  }

  /** The characters Python's `str.isspace()` accepts, which `str.strip()` removes. */
  predicate IsSpace(c: char) {
    || c == ' '
    || ('\t' <= c <= '\r')
    || ('\U{1C}' <= c <= '\U{1F}')
    || c == '\U{85}' || c == '\U{A0}' || c == '\U{1680}'
    || ('\U{2000}' <= c <= '\U{200A}')
    || c == '\U{2028}' || c == '\U{2029}' || c == '\U{202F}' || c == '\U{205F}'
    || c == '\U{3000}'
  }

  predicate AllSpace(s: string) {
    forall i :: 0 <= i < |s| ==> IsSpace(s[i])
  }

  /** Python's `s.lstrip()`: the suffix left after dropping leading whitespace. */
  function LStrip(s: string): (r: string)
    ensures |r| <= |s| && r == s[|s| - |r|..]
    ensures |r| > 0 ==> !IsSpace(r[0])
  {
    if |s| > 0 && IsSpace(s[0]) then LStrip(s[1..]) else s
  }

  /** Everything `lstrip()` cuts away is whitespace. */
  lemma {:induction false} LStripCut(s: string)
    ensures AllSpace(s[..|s| - |LStrip(s)|])
  {
    if |s| > 0 && IsSpace(s[0]) {
      var t := s[1..];
      LStripCut(t);
      var n := |t| - |LStrip(t)|;
      assert |s| - |LStrip(s)| == n + 1;
      forall i | 0 <= i < n + 1 ensures IsSpace(s[i]) {
        if i > 0 {
          assert s[i] == t[..n][i - 1];
        }
      }
    }
  }

  /** Python's `s.rstrip()`: the prefix left after dropping trailing whitespace. */
  function RStrip(s: string): (r: string)
    ensures |r| <= |s| && r == s[..|r|]
    ensures |r| > 0 ==> !IsSpace(r[|r| - 1])
  {
    if |s| > 0 && IsSpace(s[|s| - 1]) then RStrip(s[..|s| - 1]) else s
  }

  /** Everything `rstrip()` cuts away is whitespace. */
  lemma {:induction false} RStripCut(s: string)
    ensures AllSpace(s[|RStrip(s)|..])
  {
    if |s| > 0 && IsSpace(s[|s| - 1]) {
      var t := s[..|s| - 1];
      RStripCut(t);
      var n := |RStrip(t)|;
      assert |RStrip(s)| == n;
      forall i | n <= i < |s| ensures IsSpace(s[i]) {
        if i < |s| - 1 {
          assert s[i] == t[n..][i - n];
        }
      }
    }
  }

  /** Python's `s.strip()`: whitespace removed from both ends. */
  function Strip(s: string): (r: string)
    ensures |r| <= |s|
    ensures |r| > 0 ==> !IsSpace(r[0]) && !IsSpace(r[|r| - 1])
  {
    RStrip(LStrip(s))
  }

  /** Where the text `strip()` keeps begins in its argument. */
  function StripStart(s: string): (a: nat)
    ensures a <= |s|
  {
    |s| - |LStrip(s)|
  }

  /** What `strip()` keeps is the slice of its argument from `StripStart`, and
      everything it cuts away on either side is whitespace. */
  lemma StripSlice(s: string)
    ensures StripStart(s) + |Strip(s)| <= |s|
    ensures Strip(s) == s[StripStart(s)..StripStart(s) + |Strip(s)|]
    ensures AllSpace(s[..StripStart(s)]) && AllSpace(s[StripStart(s) + |Strip(s)|..])
  {
    var l := LStrip(s);
    var r := RStrip(l);
    var a := |s| - |l|;
    LStripCut(s);
    RStripCut(l);
    SliceOfSuffix(s, l, r, a);
  }

  /** A prefix `r` of a suffix `l` is a slice of the whole text; when the stretches cut
      off before `l` and after `r` are whitespace, so are the text's two ends. */
  lemma SliceOfSuffix(s: string, l: string, r: string, a: nat)
    requires a <= |s| && l == s[a..] && |r| <= |l| && r == l[..|r|]
    requires AllSpace(s[..a]) && AllSpace(l[|r|..])
    ensures a + |r| <= |s| && r == s[a..a + |r|]
    ensures AllSpace(s[..a]) && AllSpace(s[a + |r|..])
  {
    assert s[a + |r|..] == l[|r|..];
  }

  /** A character absent from a text is absent from it stripped. */
  lemma StripKeepsAbsent(s: string, c: char)
    requires c !in s
    ensures c !in Strip(s)
  {
    StripSlice(s);
    var a := StripStart(s);
    var r := Strip(s);
    forall k | 0 <= k < |r| ensures r[k] != c {
      assert r[k] == s[a + k];
    }
  }

  /** `strip()` leaves a text alone when neither end is whitespace. */
  lemma StripTrimmed(s: string)
    requires |s| > 0 ==> !IsSpace(s[0]) && !IsSpace(s[|s| - 1])
    ensures Strip(s) == s
  {
    assert LStrip(s) == s;
    assert RStrip(s) == s;
  }

  /** `strip()` leaves an already stripped text alone. */
  lemma StripIdempotent(s: string)
    ensures Strip(Strip(s)) == Strip(s)
  {
    StripTrimmed(Strip(s));
  }

  /** A text is empty after `strip()` exactly when it is all whitespace. */
  lemma StripEmptyIff(s: string)
    ensures Strip(s) == "" <==> AllSpace(s)
  {
    if AllSpace(s) {
      LStripAllSpace(s);
    } else {
      var i :| 0 <= i < |s| && !IsSpace(s[i]);
      LStripCut(s);
      RStripKeepsHead(LStrip(s));
    }
  }

  /** `rstrip()` keeps a text whose first character is not whitespace non-empty. */
  lemma {:induction false} RStripKeepsHead(s: string)
    requires |s| > 0 && !IsSpace(s[0])
    ensures |RStrip(s)| > 0
  {
    if |s| > 1 && IsSpace(s[|s| - 1]) {
      RStripKeepsHead(s[..|s| - 1]);
    }
  }

  lemma {:induction false} LStripAllSpace(s: string)
    requires AllSpace(s)
    ensures LStrip(s) == ""
  {
    if |s| > 0 {
      LStripAllSpace(s[1..]);
    }
  }

  /** Python's `c.lower()` on the ASCII capitals; every other character is kept. */
  function LowerChar(c: char): char {
    if 'A' <= c <= 'Z' then (c as int + 32) as char else c
  }

  function Lower(s: string): (r: string)
    ensures |r| == |s|
    ensures forall i :: 0 <= i < |s| ==> r[i] == LowerChar(s[i])
  {
    seq(|s|, i requires 0 <= i < |s| => LowerChar(s[i]))
  }

  /** Case-insensitive substring test, as `str.contains(p, case=False)` does for an ASCII pattern. */
  predicate ContainsIgnoreCase(s: string, p: string) {
    Contains(Lower(s), Lower(p))
  }

  /** Python's `sep.join(xs)`. */
  function Join(xs: seq<string>, sep: string): (r: string)
    ensures |xs| == 1 ==> r == xs[0]
  {
    if |xs| == 0 then ""
    else if |xs| == 1 then xs[0]
    else xs[0] + sep + Join(xs[1..], sep)
  }

  /** Two joins of equally long parts with the same separator are equally long. */
  lemma {:induction false} JoinSameLength(xs: seq<string>, ys: seq<string>, sep: string)
    requires |xs| == |ys|
    requires forall i :: 0 <= i < |xs| ==> |xs[i]| == |ys[i]|
    ensures |Join(xs, sep)| == |Join(ys, sep)|
  {
    if |xs| > 1 {
      JoinSameLength(xs[1..], ys[1..], sep);
    }
  }

  /** Joining newline-free parts with a newline-free separator gives a newline-free text. */
  lemma {:induction false} JoinNoNewline(xs: seq<string>, sep: string)
    requires '\n' !in sep
    requires forall i :: 0 <= i < |xs| ==> '\n' !in xs[i]
    ensures '\n' !in Join(xs, sep)
  {
    if |xs| > 1 {
      JoinNoNewline(xs[1..], sep);
    }
  }

  /** Python's `c * n` for a one-character string `c`. */
  function Repeat(c: char, n: nat): (r: string)
    ensures |r| == n
    ensures forall i :: 0 <= i < n ==> r[i] == c
  {
    seq(n, _ => c)
  }

  /** Python's `s.replace(a, b)` for one-character `a` and `b`. */
  function ReplaceChar(s: string, a: char, b: char): (r: string)
    ensures |r| == |s|
    ensures forall i :: 0 <= i < |s| ==> r[i] == (if s[i] == a then b else s[i])
  {
    seq(|s|, i requires 0 <= i < |s| => if s[i] == a then b else s[i])
  }

  /** No newline occurs before the first one `FindFrom` reports. */
  lemma NoNewlineBefore(s: string, i: nat)
    requires i <= |s|
    requires forall k :: 0 <= k < i ==> !OccursAt(s, "\n", k)
    ensures '\n' !in s[..i]
  {
    forall k | 0 <= k < i ensures s[k] != '\n' {
      assert !OccursAt(s, "\n", k);
      assert s[k..k + 1] == [s[k]];
    }
  }

  /** Python's `s.split('\n')`: the pieces between newlines; joining them back with
      newlines gives `s` again. */
  function SplitLines(s: string): (r: seq<string>)
    decreases |s|
    ensures |r| > 0
    ensures forall i :: 0 <= i < |r| ==> '\n' !in r[i]
    ensures Join(r, "\n") == s
  {
    match FindFrom(s, "\n", 0)
    case None =>
      NoNewlineBefore(s, |s|);
      [s]
    case Some(i) =>
      NoNewlineBefore(s, i);
      assert s[i..i + 1] == "\n";
      var rest := SplitLines(s[i + 1..]);
      assert s == s[..i] + "\n" + s[i + 1..];
      [s[..i]] + rest
  }

  /** A newline-free line followed by a newline splits off as the first piece. */
  lemma SplitLinesCons(x: string, y: string)
    requires '\n' !in x
    ensures SplitLines(x + "\n" + y) == [x] + SplitLines(y)
  {
    var s := x + "\n" + y;
    forall k | 0 <= k < |x| ensures !OccursAt(s, "\n", k) {
      assert s[k] == x[k];
      if OccursAt(s, "\n", k) {
        OccursAtChars(s, "\n", k, 0);
      }
    }
    assert OccursAt(s, "\n", |x|);
    assert s[..|x|] == x;
    assert s[|x| + 1..] == y;
  }
}
