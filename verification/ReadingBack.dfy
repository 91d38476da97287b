/** What reading a known text at a known place gives, token by token. */
module ReadingBack {
  import opened Scanning

  /** From `pos` on, the text reads `s`. */
  ghost predicate Reads(chars: string, pos: nat, s: string) {
    pos <= |chars| && chars[pos..] == s
  }

  lemma Step(chars: string, pos: nat, a: string, b: string)
    requires Reads(chars, pos, a + b)
    ensures Reads(chars, pos + |a|, b)
    ensures chars[pos..pos + |a|] == a
  {
    assert |chars| - pos == |a| + |b|;
    assert chars[pos + |a|..] == chars[pos..][|a|..];
    assert chars[pos..pos + |a|] == chars[pos..][..|a|];
  }

  ghost predicate AllIn(inClass: char -> bool, s: string) {
    forall i :: 0 <= i < |s| ==> inClass(s[i])
  }

  ghost predicate White(s: string) {
    forall i :: 0 <= i < |s| ==> IsWhitespace(s[i])
  }

  ghost predicate Apart(inClass: char -> bool, s: string) {
    s != "" ==> !inClass(s[0])
  }

  lemma {:induction false} RunEndAfter(inClass: char -> bool, chars: string, pos: nat, a: string, b: string)
    requires Reads(chars, pos, a + b) && AllIn(inClass, a) && Apart(inClass, b)
    ensures RunEnd(inClass, chars, pos) == pos + |a|
    ensures Reads(chars, pos + |a|, b)
    decreases |a|
  {
    Step(chars, pos, a, b);
    if a == "" {
      assert b != "" ==> chars[pos..][0] == b[0];
    } else {
      assert chars[pos..][0] == a[0];
      assert a + b == [a[0]] + (a[1..] + b);
      Step(chars, pos, [a[0]], a[1..] + b);
      RunEndAfter(inClass, chars, pos + 1, a[1..], b);
    }
  }

  /** Reading one given character. */
  lemma NextIs(chars: string, pos: nat, c: char, rest: string)
    requires Reads(chars, pos, [c] + rest)
    ensures At(chars, pos, c) && Reads(chars, pos + 1, rest)
  {
    Step(chars, pos, [c], rest);
    assert chars[pos..pos + 1][0] == chars[pos];
  }

  /** Reading a space in front of something else. */
  lemma SkipSpace(chars: string, pos: nat, rest: string)
    requires Reads(chars, pos, " " + rest) && Apart(IsWhitespace, rest)
    ensures SkipWs(chars, pos) == pos + 1 && Reads(chars, pos + 1, rest)
  {
    RunEndAfter(IsWhitespace, chars, pos, " ", rest);
  }

  lemma NothingToSkip(chars: string, pos: nat, s: string)
    requires Reads(chars, pos, s) && Apart(IsWhitespace, s)
    ensures SkipWs(chars, pos) == pos
  {
    assert "" + s == s;
    RunEndAfter(IsWhitespace, chars, pos, "", s);
  }

  lemma SkipWsIs(chars: string, pos: nat)
    requires pos <= |chars|
    ensures SkipWs(chars, pos) == RunEnd(IsWhitespace, chars, pos)
  {
  }

  lemma BothWhite(a: string, b: string)
    requires AllIn(IsWhitespace, a) && AllIn(IsWhitespace, b)
    ensures AllIn(IsWhitespace, a + b)
  {
  }

  lemma Regroup(a: string, b: string, c: string)
    ensures (a + b) + c == a + (b + c)
  {
  }

  lemma {:induction false} SkipTwice(chars: string, pos: nat)
    requires pos <= |chars|
    ensures SkipWs(chars, SkipWs(chars, pos)) == SkipWs(chars, pos)
    decreases |chars| - pos
  {
    if pos < |chars| && IsWhitespace(chars[pos]) {
      SkipTwice(chars, pos + 1);
    }
  }

  lemma WhiteRuns(chars: string, pos: nat, gap: string, rest: string)
    requires White(gap) && Apart(IsWhitespace, rest) && Reads(chars, pos, gap + rest)
    ensures SkipWs(chars, pos) == pos + |gap| && Reads(chars, pos + |gap|, rest)
  {
    hide RunEnd;
    RunEndAfter(IsWhitespace, chars, pos, gap, rest);
  }

  // ----- What stands somewhere -----

  lemma Cut(chars: string, pos: nat, end: nat)
    requires pos <= end <= |chars|
    ensures chars[pos..] == chars[pos..end] + chars[end..]
    ensures Reads(chars, pos, chars[pos..end] + chars[end..]) && Reads(chars, end, chars[end..])
  {
  }

  lemma {:induction false} RunIs(inClass: char -> bool, chars: string, pos: nat)
    requires pos <= |chars|
    ensures var end := RunEnd(inClass, chars, pos);
            && (forall i :: 0 <= i < end - pos ==> inClass(chars[pos..end][i]))
            && (end < |chars| ==> !inClass(chars[end]))
    decreases |chars| - pos
  {
    if pos < |chars| && inClass(chars[pos]) {
      RunIs(inClass, chars, pos + 1);
      var end := RunEnd(inClass, chars, pos);
      assert chars[pos..end] == [chars[pos]] + chars[pos + 1..end];
    }
  }

  /** White space, and what comes after it. */
  lemma SkippedIs(chars: string, pos: nat)
    requires pos <= |chars|
    ensures var end := SkipWs(chars, pos);
            White(chars[pos..end]) && Apart(IsWhitespace, chars[end..]) &&
              chars[pos..] == chars[pos..end] + chars[end..]
  {
    hide RunEnd;
    RunIs(IsWhitespace, chars, pos);
    Cut(chars, pos, SkipWs(chars, pos));
  }

  lemma SeenAt(chars: string, pos: nat, c: char)
    requires At(chars, pos, c)
    ensures pos < |chars| && chars[pos..] == [c] + chars[pos + 1..]
  {
  }
}
