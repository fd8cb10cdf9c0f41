/** The browser's `cleanDescription`: a falsy description gives the empty
    string; otherwise every `<![CDATA[` and `]]>` is deleted and every `<br>`
    becomes a space, each in one left-to-right pass over non-overlapping
    matches, and the result is trimmed. */
module Description {
  import opened JsString

  const CdataOpen: string := "<![CDATA["
  const CdataClose: string := "]]>"
  const Break: string := "<br>"

  /** `s.replace(/<!\[CDATA\[|\]\]>/g, '')`: at each position the first
      alternative is tried first; a match is dropped and the scan resumes
      after it. */
  function StripCdata(s: string): (r: string)
    ensures |r| <= |s|
    ensures '<' !in s && ']' !in s ==> r == s
    decreases |s|
  {
    if s == [] then []
    else if StartsWithAt(s, 0, CdataOpen) then
      assert s[..9][0] == s[0];
      StripCdata(s[9..])
    else if StartsWithAt(s, 0, CdataClose) then
      assert s[..3][0] == s[0];
      StripCdata(s[3..])
    else [s[0]] + StripCdata(s[1..])
  }

  /** `s.replace(/<br>/g, ' ')`. */
  function BreaksToSpaces(s: string): (r: string)
    ensures |r| <= |s|
    ensures '<' !in s ==> r == s
    decreases |s|
  {
    if s == [] then []
    else if StartsWithAt(s, 0, Break) then
      assert s[..4][0] == s[0];
      " " + BreaksToSpaces(s[4..])
    else [s[0]] + BreaksToSpaces(s[1..])
  }

  /** `cleanDescription(description)`; None stands for `undefined`/`null`. */
  function CleanDescription(description: Option<string>): (r: string)
    ensures r == [] || (!IsSpace(r[0]) && !IsSpace(r[|r| - 1]))
    ensures description.None? || description == Some([]) ==> r == []
  {
    match description
    case None => []
    case Some(d) => if d == [] then [] else Trim(BreaksToSpaces(StripCdata(d)))
  }

  // ---------------------------------------------------------------------------
  // properties

  /** The first character after the replacement is a space or the first
      character of the input. */
  lemma BreaksHead(s: string)
    requires s != []
    ensures BreaksToSpaces(s) != [] && (BreaksToSpaces(s)[0] == ' ' || BreaksToSpaces(s)[0] == s[0])
  {
  }

  /** No `<br>` is left once they are replaced: a space is not part of one,
      so the replacement cannot make new ones. */
  lemma {:induction false} NoBreakLeft(s: string)
    ensures !Contains(BreaksToSpaces(s), Break)
    decreases |s|
  {
    if s != [] {
      var r := BreaksToSpaces(s);
      if StartsWithAt(s, 0, Break) {
        NoBreakLeft(s[4..]);
        NoBreakAfterHead(" ", BreaksToSpaces(s[4..]));
      } else {
        NoBreakLeft(s[1..]);
        var rest := BreaksToSpaces(s[1..]);
        BreakFromHead(s[0], s[1..]);
        assert [s[0]] + s[1..] == s;
        NoBreakAfterHead([s[0]], rest);
      }
    }
  }

  /** A `<br>` at the front of the output with a one-character head is
      already at the front of the input. */
  lemma BreakFromHead(c: char, t: string)
    ensures StartsWithAt([c] + BreaksToSpaces(t), 0, Break) ==> StartsWithAt([c] + t, 0, Break)
  {
    var out := [c] + BreaksToSpaces(t);
    if StartsWithAt(out, 0, Break) {
      assert out[1] == 'b' && out[2] == 'r' && out[3] == '>' by { assert out[..4] == Break; }
      BreaksHead(t);
      var t1 := BreaksToSpaces(t[1..]);
      assert BreaksToSpaces(t) == [t[0]] + t1;
      BreaksHead(t[1..]);
      var t2 := BreaksToSpaces(t[2..]);
      assert t1 == [t[1]] + t2;
      BreaksHead(t[2..]);
      assert ([c] + t)[..4] == [c, t[0], t[1], t[2]];
    }
  }

  /** A one-character head adds no `<br>` to a string without one unless the
      string's first three characters complete it. */
  lemma NoBreakAfterHead(h: string, rest: string)
    requires |h| == 1 && !Contains(rest, Break)
    requires !StartsWithAt(h + rest, 0, Break)
    ensures !Contains(h + rest, Break)
  {
    var s := h + rest;
    forall i | 1 <= i <= |s| ensures !StartsWithAt(s, i, Break) {
      if StartsWithAt(s, i, Break) {
        assert s[i..i + 4] == rest[i - 1..i + 3];
        assert StartsWithAt(rest, i - 1, Break);
      }
    }
  }

  /** A slice of a string without `pat` has no `pat` either. */
  lemma SliceKeepsOut(s: string, i: nat, j: nat, pat: string)
    requires i <= j <= |s| && !Contains(s, pat)
    ensures !Contains(s[i..j], pat)
  {
    if Contains(s[i..j], pat) {
      var k :| 0 <= k <= |s[i..j]| && StartsWithAt(s[i..j], k, pat);
      StartsWithAtSlice(s, i, j, k, pat);
    }
  }

  /** A cleaned description holds no `<br>`, and does not begin or end with
      white space. */
  lemma CleanedHasNoBreak(description: Option<string>)
    ensures !Contains(CleanDescription(description), Break)
  {
    if description.Some? && description.value != [] {
      var replaced := BreaksToSpaces(StripCdata(description.value));
      NoBreakLeft(StripCdata(description.value));
      var i, j := TrimIsSlice(replaced);
      SliceKeepsOut(replaced, i, j, Break);
    } else {
      assert !StartsWithAt([], 0, Break);
    }
  }

  /** Text with no markup characters and no outer white space comes back as
      it is. */
  lemma PlainTextUnchanged(d: string)
    requires '<' !in d && ']' !in d
    requires d == [] || (!IsSpace(d[0]) && !IsSpace(d[|d| - 1]))
    ensures CleanDescription(Some(d)) == d
  {
    TrimNoop(d);
  }

  /** One pass is not a fixpoint: deleting a `<![CDATA[` can join the
      characters around it into a new `]]>`, which stays in the output. */
  lemma SinglePassLeavesMarker()
    ensures StripCdata("]<![CDATA[]>") == CdataClose
  {
    var s := "]<![CDATA[]>";
    assert !StartsWithAt(s, 0, CdataOpen) && !StartsWithAt(s, 0, CdataClose) by { assert s[1] == '<'; }
    assert s[1..] == CdataOpen + "]>";
    assert StartsWithAt(s[1..], 0, CdataOpen);
    assert s[1..][9..] == "]>";
    assert !StartsWithAt("]>", 0, CdataOpen);
    assert !StartsWithAt(">", 0, CdataOpen);
    assert "]>"[1..] == ">";
  }
}
