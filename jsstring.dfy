/** The JavaScript string primitives the scraper leans on: the white-space
    class of `\s` and `trim`, substring tests, leftmost regular-expression
    matches (as "the first position where a pattern matches"), runs of
    characters of one class, and ASCII lower-casing. */
module JsString {

  datatype Option<+T> = None | Some(value: T)

  /** The characters that `\s` in a regular expression and `String.prototype.trim`
      treat as white space (WhiteSpace and LineTerminator of ECMAScript). */
  predicate IsSpace(c: char) {
    c == ' ' || c == '\t' || c == '\n' || c == '\r' || c == '\U{000B}' || c == '\U{000C}'
    || c == '\U{00A0}' || c == '\U{1680}' || ('\U{2000}' <= c <= '\U{200A}')
    || c == '\U{2028}' || c == '\U{2029}' || c == '\U{202F}' || c == '\U{205F}'
    || c == '\U{3000}' || c == '\U{FEFF}'
  }

  /** The characters that `.` in a regular expression does not match. */
  predicate IsLineTerminator(c: char) {
    c == '\n' || c == '\r' || c == '\U{2028}' || c == '\U{2029}'
  }

  /** `\d`: an ASCII decimal digit. */
  predicate IsDigit(c: char) { '0' <= c <= '9' }

  /** `[\d.]`: a digit or a full stop. */
  predicate IsDigitOrDot(c: char) { IsDigit(c) || c == '.' }

  predicate AllDigits(s: string) { forall k :: 0 <= k < |s| ==> IsDigit(s[k]) }

  predicate NoSpaces(s: string) { forall k :: 0 <= k < |s| ==> !IsSpace(s[k]) }

  // ---------------------------------------------------------------------------
  // trim

  /** How many white-space characters `s` begins with. */
  function LeadingSpaces(s: string): (n: nat)
    ensures n <= |s|
    ensures forall k :: 0 <= k < n ==> IsSpace(s[k])
    ensures n == |s| || !IsSpace(s[n])
  {
    if s != [] && IsSpace(s[0]) then 1 + LeadingSpaces(s[1..]) else 0
  }

  /** How many white-space characters `s` ends with. */
  function TrailingSpaces(s: string): (n: nat)
    ensures n <= |s|
    ensures forall k :: |s| - n <= k < |s| ==> IsSpace(s[k])
    ensures n == |s| || !IsSpace(s[|s| - n - 1])
  {
    if s != [] && IsSpace(s[|s| - 1]) then 1 + TrailingSpaces(s[..|s| - 1]) else 0
  }

  /** `trimStart`: drops the leading white space. */
  function TrimStart(s: string): (r: string)
    ensures r == [] || !IsSpace(r[0])
  {
    s[LeadingSpaces(s)..]
  }

  /** `trimEnd`: drops the trailing white space. */
  function TrimEnd(s: string): (r: string)
    ensures r == [] || !IsSpace(r[|r| - 1])
  {
    s[..|s| - TrailingSpaces(s)]
  }

  /** `trim`: neither end of the result is white space, and only white space
      was removed. */
  function Trim(s: string): (r: string)
    ensures r == [] || (!IsSpace(r[0]) && !IsSpace(r[|r| - 1]))
    ensures |r| <= |s|
  {
    TrimEnd(TrimStart(s))
  }

  lemma TrimStartNoop(s: string)
    requires s == [] || !IsSpace(s[0])
    ensures TrimStart(s) == s
  {
  }

  lemma TrimEndNoop(s: string)
    requires s == [] || !IsSpace(s[|s| - 1])
    ensures TrimEnd(s) == s
  {
  }

  /** A string that does not begin or end with white space is its own trim. */
  lemma TrimNoop(s: string)
    requires s == [] || (!IsSpace(s[0]) && !IsSpace(s[|s| - 1]))
    ensures Trim(s) == s
  {
    TrimStartNoop(s);
    TrimEndNoop(s);
  }

  /** Trimming cuts a slice out of the string. */
  lemma TrimIsSlice(s: string) returns (i: nat, j: nat)
    ensures i <= j <= |s| && Trim(s) == s[i..j]
  {
    var u := TrimStart(s);
    i := LeadingSpaces(s);
    j := i + |u| - TrailingSpaces(u);
    assert Trim(s) == u[..|u| - TrailingSpaces(u)];
  }

  /** Leading white space of `a + b` lies inside `a` when `b` starts with a
      character that is not white space. */
  lemma {:induction false} TrimStartAppend(a: string, b: string)
    requires b != [] && !IsSpace(b[0])
    ensures TrimStart(a + b) == TrimStart(a) + b
    decreases |a|
  {
    if a == [] {
      assert a + b == b;
      TrimStartNoop(b);
    } else if IsSpace(a[0]) {
      assert (a + b)[1..] == a[1..] + b;
      TrimStartAppend(a[1..], b);
    } else {
      TrimStartNoop(a + b);
      TrimStartNoop(a);
    }
  }

  /** Trailing white space of `a + b` lies inside `b` when `a` ends with a
      character that is not white space. */
  lemma {:induction false} TrimEndAppend(a: string, b: string)
    requires a != [] && !IsSpace(a[|a| - 1])
    ensures TrimEnd(a + b) == a + TrimEnd(b)
    decreases |b|
  {
    if b == [] {
      assert a + b == a;
      TrimEndNoop(a);
    } else if IsSpace(b[|b| - 1]) {
      assert (a + b)[..|a + b| - 1] == a + b[..|b| - 1];
      TrimEndAppend(a, b[..|b| - 1]);
    } else {
      TrimEndNoop(a + b);
      TrimEndNoop(b);
    }
  }

  /** The count of trailing white space is determined by where it stops. */
  lemma TrailingSpacesIs(s: string, n: nat)
    requires n <= |s|
    requires forall k :: |s| - n <= k < |s| ==> IsSpace(s[k])
    requires n == |s| || !IsSpace(s[|s| - n - 1])
    ensures TrailingSpaces(s) == n
  {
    var m := TrailingSpaces(s);
    assert m >= n;
    assert m <= n;
  }

  /** Trailing white space of `a + b` lies inside `b` when `b` starts with a
      character that is not white space. */
  lemma TrimEndRight(a: string, b: string)
    requires b != [] && !IsSpace(b[0])
    ensures TrimEnd(a + b) == a + TrimEnd(b)
  {
    var n := TrailingSpaces(b);
    var s := a + b;
    forall k | |s| - n <= k < |s| ensures IsSpace(s[k]) {
      assert s[k] == b[k - |a|];
    }
    assert s[|s| - n - 1] == b[|b| - n - 1];
    TrailingSpacesIs(s, n);
    assert s[..|s| - n] == a + b[..|b| - n];
  }

  // ---------------------------------------------------------------------------
  // replace(/\s+/g, ' ')

  /** Every maximal run of white space replaced by one ASCII space. */
  function Collapse(s: string): (r: string)
    ensures r == [] <==> s == []
    ensures s != [] && !IsSpace(s[0]) ==> r[0] == s[0]
    decreases |s|
  {
    if s == [] then []
    else if IsSpace(s[0]) then
      var rest := TrimStart(s);
      [' '] + Collapse(rest)
    else
      [s[0]] + Collapse(s[1..])
  }

  /** Characters that are not white space pass through collapsing unchanged. */
  lemma {:induction false} CollapseNoSpacesPrefix(a: string, t: string)
    requires NoSpaces(a)
    ensures Collapse(a + t) == a + Collapse(t)
  {
    if a != [] {
      assert (a + t)[0] == a[0];
      assert (a + t)[1..] == a[1..] + t;
      CollapseNoSpacesPrefix(a[1..], t);
      assert a == [a[0]] + a[1..];
    } else {
      assert a + t == t;
    }
  }

  /** The shape `replace(/\s+/g, ' ')` leaves: every white-space character is
      an ASCII space and is not followed by another white-space character. */
  predicate Collapsed(s: string) {
    && (forall k :: 0 <= k < |s| && IsSpace(s[k]) ==> s[k] == ' ')
    && (forall j, k :: 0 <= j < |s| && k == j + 1 && k < |s| && IsSpace(s[j]) ==> !IsSpace(s[k]))
  }

  /** A collapsed string is left as it is, so collapsing twice is collapsing once. */
  lemma {:induction false} CollapseFixesCollapsed(s: string)
    requires Collapsed(s)
    ensures Collapse(s) == s
    decreases |s|
  {
    if s != [] {
      var t := s[1..];
      assert Collapsed(t) by {
        forall j, k | 0 <= j < |t| && k == j + 1 && k < |t| && IsSpace(t[j]) ensures !IsSpace(t[k]) {
          assert t[j] == s[j + 1] && t[k] == s[k + 1];
        }
        forall k | 0 <= k < |t| && IsSpace(t[k]) ensures t[k] == ' ' {
          assert t[k] == s[k + 1];
        }
      }
      CollapseFixesCollapsed(t);
      if IsSpace(s[0]) {
        if |s| > 1 {
          assert !IsSpace(s[1]);
        }
        TrimStartNoop(t);
        assert TrimStart(s) == t;
      }
    }
  }

  /** Collapsing leaves collapsed text: collapsing twice is collapsing once. */
  lemma {:induction false} CollapseIsCollapsed(s: string)
    ensures Collapsed(Collapse(s))
    decreases |s|
  {
    if s != [] {
      if IsSpace(s[0]) {
        var rest := TrimStart(s);
        CollapseIsCollapsed(rest);
        CollapsedCons(' ', Collapse(rest));
      } else {
        CollapseIsCollapsed(s[1..]);
        CollapsedCons(s[0], Collapse(s[1..]));
      }
    }
  }

  /** A character in front of collapsed text keeps it collapsed, unless it is
      white space other than a plain space or comes before white space. */
  lemma CollapsedCons(c: char, r: string)
    requires Collapsed(r)
    requires IsSpace(c) ==> c == ' ' && (r == [] || !IsSpace(r[0]))
    ensures Collapsed([c] + r)
  {
    var s := [c] + r;
    forall k | 0 < k < |s| ensures s[k] == r[k - 1] {
    }
  }

  /** A slice of collapsed text is collapsed. */
  lemma CollapsedSlice(s: string, lo: nat, hi: nat)
    requires lo <= hi <= |s| && Collapsed(s)
    ensures Collapsed(s[lo..hi])
  {
    var t := s[lo..hi];
    forall k | 0 <= k < |t| ensures t[k] == s[lo + k] {
    }
  }

  /** Trimming collapsed text leaves it collapsed. */
  lemma TrimCollapsed(s: string)
    requires Collapsed(s)
    ensures Collapsed(Trim(s))
  {
    var i, j := TrimIsSlice(s);
    CollapsedSlice(s, i, j);
  }

  /** Collapsing works piecewise across a boundary where the right part starts
      with a character that is not white space. */
  lemma {:induction false} CollapseAppend(a: string, b: string)
    requires b != [] && !IsSpace(b[0])
    ensures Collapse(a + b) == Collapse(a) + Collapse(b)
    decreases |a|, 1
  {
    if a == [] {
      assert a + b == b;
    } else if IsSpace(a[0]) {
      CollapseAppendSpace(a, b);
    } else {
      CollapseAppendChar(a, b);
    }
  }

  lemma {:induction false} CollapseAppendSpace(a: string, b: string)
    requires b != [] && !IsSpace(b[0]) && a != [] && IsSpace(a[0])
    ensures Collapse(a + b) == Collapse(a) + Collapse(b)
    decreases |a|, 0
  {
    var rest := TrimStart(a);
    CollapseSpaceAppend(a, b);
    CollapseSpaceHead(a);
    assert |rest| < |a| by { assert LeadingSpaces(a) != 0; }
    CollapseAppend(rest, b);
    var x, y, z := Collapse(rest), Collapse(b), [' '];
    assert z + (x + y) == (z + x) + y;
  }

  /** A text starting with white space collapses to one space and the rest. */
  lemma CollapseSpaceHead(s: string)
    requires s != [] && IsSpace(s[0])
    ensures Collapse(s) == [' '] + Collapse(TrimStart(s))
  {
  }

  /** The leading white space of `a + b` is that of `a` when `b` starts with
      a character that is not white space. */
  lemma CollapseSpaceAppend(a: string, b: string)
    requires b != [] && !IsSpace(b[0]) && a != [] && IsSpace(a[0])
    ensures Collapse(a + b) == [' '] + Collapse(TrimStart(a) + b)
  {
    assert (a + b)[0] == a[0];
    CollapseSpaceHead(a + b);
    TrimStartAppend(a, b);
  }

  lemma {:induction false} CollapseAppendChar(a: string, b: string)
    requires b != [] && !IsSpace(b[0]) && a != [] && !IsSpace(a[0])
    ensures Collapse(a + b) == Collapse(a) + Collapse(b)
    decreases |a|, 0
  {
    assert (a + b)[1..] == a[1..] + b;
    CollapseAppend(a[1..], b);
    assert (a + b)[0] == a[0];
  }

  // ---------------------------------------------------------------------------
  // substrings and leftmost matches

  /** `s` holds `pat` at position `i`. */
  predicate StartsWithAt(s: string, i: nat, pat: string) {
    i + |pat| <= |s| && s[i..i + |pat|] == pat
  }

  /** A match inside a slice is a match in the whole string. */
  lemma StartsWithAtSlice(s: string, i: nat, j: nat, k: nat, pat: string)
    requires i <= j <= |s| && StartsWithAt(s[i..j], k, pat)
    ensures StartsWithAt(s, i + k, pat)
  {
    var sl := s[i..j];
    forall t | 0 <= t < |pat| ensures s[i + k + t] == pat[t] {
      assert sl[k..k + |pat|][t] == pat[t];
      assert sl[k + t] == s[i + k + t];
    }
    assert s[i + k..i + k + |pat|] == pat;
  }

  /** Concatenation is associative. */
  lemma ConcatAssoc(a: string, b: string, c: string, d: string)
    ensures a + b + c + d == a + (b + c + d)
  {
  }

  /** The middle part of a concatenation starts where the first part ends. */
  lemma MiddleOf(x: string, y: string, z: string)
    ensures StartsWithAt(x + y + z, |x|, y)
    ensures (x + y + z)[|x|..|x| + |y|] == y
  {
    assert (x + y + z)[|x|..|x| + |y|] == y;
  }

  /** The parts of `pre + open + g + close + post`, found at their offsets. */
  lemma Framed(pre: string, open: string, g: string, close: string, post: string)
    ensures var s := pre + open + g + close + post;
      && s[..|pre|] == pre
      && StartsWithAt(s, |pre|, open)
      && s[|pre| + |open|..|pre| + |open| + |g|] == g
      && StartsWithAt(s, |pre| + |open| + |g|, close)
  {
    var s := pre + open + g + close + post;
    assert s == pre + open + (g + close + post);
    MiddleOf(pre, open, g + close + post);
    assert s == (pre + open) + g + (close + post);
    MiddleOf(pre + open, g, close + post);
    MiddleOf(pre + open + g, close, post);
  }

  lemma StartsWithAtHead(s: string, i: nat, pat: string)
    requires StartsWithAt(s, i, pat) && |pat| > 0
    ensures s[i] == pat[0]
  {
    assert s[i..i + |pat|][0] == s[i];
  }

  /** The first position at or after `from` where `p` holds: where a regular
      expression finds its leftmost match, when `p(s, i)` says whether the
      expression matches at `i`. */
  function FirstWhere(s: string, from: nat, p: (string, nat) -> bool): (r: Option<nat>)
    ensures r.Some? ==> from <= r.value <= |s| && p(s, r.value)
    ensures forall j :: from <= j <= |s| && (r.None? || j < r.value) ==> !p(s, j)
    decreases |s| + 1 - from
  {
    if from > |s| then None
    else if p(s, from) then Some(from)
    else FirstWhere(s, from + 1, p)
  }

  /** The leftmost match is the position that matches with no match before it. */
  lemma FirstWhereIs(s: string, from: nat, p: (string, nat) -> bool, k: nat)
    requires from <= k <= |s| && p(s, k)
    requires forall j :: from <= j < k ==> !p(s, j)
    ensures FirstWhere(s, from, p) == Some(k)
  {
  }

  /** There is a leftmost match when some position matches. */
  lemma FirstWhereSome(s: string, from: nat, p: (string, nat) -> bool, k: nat)
    requires from <= k <= |s| && p(s, k)
    ensures FirstWhere(s, from, p).Some? && FirstWhere(s, from, p).value <= k
  {
  }

  /** There is no match at all when no position matches. */
  lemma FirstWhereNone(s: string, from: nat, p: (string, nat) -> bool)
    requires forall j :: from <= j <= |s| ==> !p(s, j)
    ensures FirstWhere(s, from, p) == None
  {
  }

  /** `includes`: whether `pat` occurs in `s`. */
  predicate Contains(s: string, pat: string) {
    exists i :: 0 <= i <= |s| && StartsWithAt(s, i, pat)
  }

  /** `indexOf`: the first occurrence of `pat` in `s`. */
  function IndexOf(s: string, pat: string): (r: Option<nat>)
    ensures r.Some? ==> StartsWithAt(s, r.value, pat)
    ensures r.Some? ==> forall j :: 0 <= j < r.value ==> !StartsWithAt(s, j, pat)
    ensures r.None? <==> !Contains(s, pat)
  {
    IndexFrom(s, pat, 0)
  }

  /** The first match of `pat` is the one `indexOf` finds. */
  lemma IndexOfIs(s: string, pat: string, i: nat)
    requires StartsWithAt(s, i, pat) && forall j :: 0 <= j < i ==> !StartsWithAt(s, j, pat)
    ensures IndexOf(s, pat) == Some(i)
  {
    assert i <= |s| && StartsWithAt(s, i, pat);
    assert Contains(s, pat);
    var r := IndexOf(s, pat);
    assert r.Some? && StartsWithAt(s, r.value, pat);
    assert r.value >= i;
  }

  function IndexFrom(s: string, pat: string, from: nat): (r: Option<nat>)
    ensures r.Some? ==> from <= r.value && StartsWithAt(s, r.value, pat)
    ensures forall j :: from <= j <= |s| && (r.None? || j < r.value) ==> !StartsWithAt(s, j, pat)
    decreases |s| + 1 - from
  {
    if from > |s| then None
    else if StartsWithAt(s, from, pat) then Some(from)
    else IndexFrom(s, pat, from + 1)
  }

  /** A string does not contain a longer pattern, nor one whose first
      character it lacks. */
  lemma NotContainsByHead(s: string, pat: string)
    requires |pat| > 0 && (|s| < |pat| || pat[0] !in s)
    ensures !Contains(s, pat)
  {
    if Contains(s, pat) {
      var i :| 0 <= i <= |s| && StartsWithAt(s, i, pat);
      StartsWithAtHead(s, i, pat);
    }
  }

  /** `s` does not contain `pat` when no place where `pat`'s first character
      occurs (with room for `pat`) is followed by `pat`'s second character. */
  lemma NotContainsByPair(s: string, pat: string)
    requires |pat| >= 2
    requires forall i :: 0 <= i && i + |pat| <= |s| && s[i] == pat[0] ==> s[i + 1] != pat[1]
    ensures !Contains(s, pat)
  {
    forall i | 0 <= i <= |s| ensures !StartsWithAt(s, i, pat) {
      if i + |pat| <= |s| && s[i] == pat[0] {
        assert s[i..i + |pat|][1] == s[i + 1];
      } else if i + |pat| <= |s| {
        assert s[i..i + |pat|][0] == s[i];
      }
    }
  }

  // ---------------------------------------------------------------------------
  // runs of one character class

  /** The end of the maximal run of characters satisfying `c` that starts at
      `i`: what a greedy `[...]*` consumes. */
  function RunEnd(s: string, i: nat, c: char -> bool): (e: nat)
    requires i <= |s|
    ensures i <= e <= |s|
    ensures forall k :: i <= k < e ==> c(s[k])
    ensures e == |s| || !c(s[e])
    decreases |s| - i
  {
    if i < |s| && c(s[i]) then RunEnd(s, i + 1, c) else i
  }

  /** The run is determined by where it stops. */
  lemma RunEndIs(s: string, i: nat, c: char -> bool, e: nat)
    requires i <= e <= |s|
    requires forall k :: i <= k < e ==> c(s[k])
    requires e == |s| || !c(s[e])
    ensures RunEnd(s, i, c) == e
  {
  }

  /** The run that starts at `i` is a string of characters of its class. */
  lemma RunSlice(s: string, i: nat, c: char -> bool)
    requires i <= |s|
    ensures forall k :: 0 <= k < |s[i..RunEnd(s, i, c)]| ==> c(s[i..RunEnd(s, i, c)][k])
  {
    var e := RunEnd(s, i, c);
    forall k | 0 <= k < e - i ensures c(s[i..e][k]) {
      assert s[i..e][k] == s[i + k];
    }
  }

  /** A run of digits is a string of digits. */
  lemma DigitRun(s: string, i: nat)
    requires i <= |s|
    ensures AllDigits(s[i..RunEnd(s, i, IsDigit)])
  {
    var e := RunEnd(s, i, IsDigit);
    forall k | 0 <= k < e - i ensures IsDigit(s[i..e][k]) {
      assert s[i..e][k] == s[i + k];
    }
  }

  // ---------------------------------------------------------------------------
  // case and character filters

  /** `toLowerCase` on ASCII letters; every other character is kept. */
  function ToLower(s: string): (r: string)
    ensures |r| == |s|
    ensures forall k :: 0 <= k < |s| ==> r[k] == LowerChar(s[k])
  {
    if s == [] then [] else [LowerChar(s[0])] + ToLower(s[1..])
  }

  function LowerChar(c: char): char {
    if 'A' <= c <= 'Z' then (c as int + 32) as char else c
  }

  /** `replace(/[^\d.]/g, '')`: the digits and full stops of `s`, in order. */
  function KeepDigitsAndDots(s: string): (r: string)
    ensures forall k :: 0 <= k < |r| ==> IsDigitOrDot(r[k])
    ensures |r| <= |s|
  {
    if s == [] then []
    else if IsDigitOrDot(s[0]) then [s[0]] + KeepDigitsAndDots(s[1..])
    else KeepDigitsAndDots(s[1..])
  }

  /** `split(c)` with a one-character separator: the pieces between the
      separators, in order. */
  function SplitOn(s: string, c: char): (r: seq<string>)
    ensures |r| >= 1
    ensures forall k :: 0 <= k < |r| ==> c !in r[k]
    decreases |s|
  {
    match IndexOf(s, [c])
    case None =>
      assert c !in s by {
        forall k | 0 <= k < |s| ensures s[k] != c {
          assert !StartsWithAt(s, k, [c]);
          assert s[k..k + 1] == [s[k]];
        }
      }
      [s]
    case Some(p) =>
      assert c !in s[..p] by {
        forall k | 0 <= k < p ensures s[..p][k] != c {
          assert !StartsWithAt(s, k, [c]);
          assert s[k..k + 1] == [s[k]];
        }
      }
      [s[..p]] + SplitOn(s[p + 1..], c)
  }

  /** Splitting pieces joined by the separator gives the pieces back. */
  lemma {:induction false} SplitOnJoined(a: string, b: string, c: char)
    requires c !in a
    ensures SplitOn(a + [c] + b, c) == [a] + SplitOn(b, c)
  {
    var s := a + [c] + b;
    assert StartsWithAt(s, |a|, [c]);
    forall j | 0 <= j < |a| ensures !StartsWithAt(s, j, [c]) {
      if StartsWithAt(s, j, [c]) {
        assert s[j] == a[j];
        StartsWithAtHead(s, j, [c]);
      }
    }
    assert IndexOf(s, [c]) == Some(|a|);
    assert s[..|a|] == a;
    assert s[|a| + 1..] == b;
  }

  /** A piece without the separator splits into itself. */
  lemma SplitOnSingle(a: string, c: char)
    requires c !in a
    ensures SplitOn(a, c) == [a]
  {
    if IndexOf(a, [c]).Some? {
      var p := IndexOf(a, [c]).value;
      StartsWithAtHead(a, p, [c]);
    }
  }
}
