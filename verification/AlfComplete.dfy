/** Every text that is accepted is laid out well: parsing succeeds exactly on the texts that some program spells. */
module AlfComplete {
  import opened SysmlModel
  import opened Scanning
  import opened ReadingBack
  import opened Decimals
  import opened AlfSyntax
  import opened AlfPrinter
  import opened AlfLayout
  import opened AlfLaidOut
  import AlfPrograms

  // ----- White space -----

  lemma WhiteBoth(a: string, b: string)
    requires White(a) && White(b)
    ensures White(a + b)
  {
  }

  /** White space may be counted to what stands before a place or to what stands behind it. */
  lemma GapGrows(chars: string, pos: nat, gap: string)
    requires pos <= |chars| && White(gap)
    ensures var p := SkipWs(chars, pos);
            White(gap + chars[pos..p]) && gap + chars[pos..] == (gap + chars[pos..p]) + chars[p..]
  {
    hide SkipWs, White;
    SkippedIs(chars, pos);
    WhiteBoth(gap, chars[pos..SkipWs(chars, pos)]);
  }

  lemma ExpectIs(chars: string, pos: nat, gap: string, c: char)
    requires pos <= |chars| && White(gap)
    ensures var r := Expect(chars, pos, [c]);
            r.Ok? ==>
              && r.next <= |chars| && White(gap + chars[pos..SkipWs(chars, pos)])
              && gap + chars[pos..] == (gap + chars[pos..SkipWs(chars, pos)]) + ([c] + chars[r.next..])
  {
    hide SkipWs, White, Spells;
    var p := SkipWs(chars, pos);
    GapGrows(chars, pos, gap);
    OneSpelled(chars, p, c);
    if At(chars, p, c) {
      SeenAt(chars, p, c);
    }
  }

  // ----- Atoms -----

  lemma WordIs(chars: string, pos: nat)
    requires pos <= |chars| && RawIdent(chars, pos).Some?
    ensures var word := RawIdent(chars, pos).value;
            && Name(word) && pos + |word| <= |chars|
            && chars[pos..] == word + chars[pos + |word|..] && Apart(WordPart, chars[pos + |word|..])
  {
    hide RunEnd;
    var end := RunEnd(IdentContinue, chars, pos);
    RunIs(IdentContinue, chars, pos);
    Cut(chars, pos, end);
    var word := RawIdent(chars, pos).value;
    assert word == chars[pos..end] && word[0] == chars[pos];
    NameIsIdent(word);
    ApartAlike(chars[end..]);
    assert end < |chars| ==> chars[end..][0] == chars[end];
  }

  lemma IdentIs(chars: string, pos: nat)
    requires pos <= |chars|
    ensures var r := IdentAt(chars, pos);
            r.Ok? ==>
              && Name(r.value) && r.next <= |chars|
              && chars[pos..] == r.value + chars[r.next..] && Apart(WordPart, chars[r.next..])
  {
    hide RawIdent, Name, Apart;
    if RawIdent(chars, pos).Some? {
      WordIs(chars, pos);
    }
  }

  lemma NoneSeen(chars: string, pos: nat, c: char, inClass: char -> bool)
    requires pos <= |chars| && !At(chars, pos, c) && forall d :: inClass(d) ==> d == c
    ensures Apart(inClass, chars[pos..])
  {
    if pos < |chars| {
      assert chars[pos..][0] == chars[pos];
    }
  }

  lemma TrimmedIs(chars: string, pos: nat)
    requires pos <= |chars|
    ensures Trimmed(chars[pos..]) == chars[SkipWs(chars, pos)..]
  {
    hide SkipWs, Trimmed;
    TrimmedAt(chars, pos, chars[pos..]);
  }

  lemma AfterWordIs(chars: string, start: nat, word: string, pos: nat) returns (p: Phrase, gap: string)
    requires start < pos <= |chars| && Name(word) && Apart(WordPart, chars[pos..])
    ensures var r := AfterIdent(chars, start, word, pos);
            r.Ok? ==>
              && r.next <= |chars| && Plainly(p) && White(gap) && Means(p) == r.value
              && PhraseOk(p, gap + chars[r.next..]) && word + chars[pos..] == PhraseThen(p, gap + chars[r.next..])
  {
    hide SkipWs, Trimmed, Name, Apart, White, IdentAt;
    p, gap := Word(word), "";
    CollectionsAlike(word);
    var q := if IsCollection(word) then SkipWs(chars, pos) else pos;
    SkippedIs(chars, pos);
    EmptyIsWhite();
    gap := chars[pos..q];
    Cut(chars, pos, q);
    if AfterIdent(chars, start, word, pos).Ok? {
      if At(chars, q, '.') && !Truth(word) {
        SeenAt(chars, q, '.');
        IdentIs(chars, q + 1);
        var feature := IdentAt(chars, q + 1);
        p, gap := Access(word, chars[pos..q], feature.value), "";
        assert "" + chars[feature.next..] == chars[feature.next..];
      } else {
        PlainWordIs(chars, word, pos, q);
      }
    }
  }

  lemma EmptyIsWhite()
    ensures White("")
  {
  }

  lemma PlainWordIs(chars: string, word: string, pos: nat, q: nat)
    requires Name(word) && pos <= q <= |chars| && Apart(WordPart, chars[pos..])
    requires q == if IsCollection(word) then SkipWs(chars, pos) else pos
    requires IsCollection(word) ==> !At(chars, q, '{')
    requires !At(chars, q, '.') || Truth(word)
    ensures PhraseOk(Word(word), chars[pos..])
  {
    hide SkipWs, Trimmed, Name, Apart;
    CollectionsAlike(word);
    TrimmedIs(chars, pos);
    if !At(chars, q, '.') {
      NoneSeen(chars, q, '.', Point);
      if IsCollection(word) {
        PointNotWhite(chars, pos);
      }
    }
    if IsCollection(word) {
      NoneSeen(chars, q, '{', Brace);
    }
  }

  lemma PointNotWhite(chars: string, pos: nat)
    requires pos <= |chars| && Apart(Point, chars[SkipWs(chars, pos)..])
    ensures Apart(Point, chars[pos..])
  {
    if pos < |chars| && chars[pos] == '.' {
      assert SkipWs(chars, pos) == pos;
    }
  }

  lemma FiguresAre(chars: string, pos: nat) returns (figures: seq<Figure>)
    requires pos <= |chars|
    ensures var end := RunEnd(IsDigit, chars, pos);
            && figures == chars[pos..end] == Digits(chars, pos) && Numeral(figures) == Value(Digits(chars, pos))
            && chars[pos..] == figures + chars[end..] && Apart(FigureChar, chars[end..])
    ensures pos < |chars| && IsDigit(chars[pos]) ==> figures != []
  {
    hide RunEnd, Numeral, Value;
    var end := RunEnd(IsDigit, chars, pos);
    RunIs(IsDigit, chars, pos);
    figures := chars[pos..end];
    NumeralIsValue(figures);
    Cut(chars, pos, end);
    ApartAlike(chars[end..]);
    assert end < |chars| ==> chars[end..][0] == chars[end];
  }

  lemma NumberIs(chars: string, pos: nat) returns (p: Phrase)
    requires pos < |chars| && IsDigit(chars[pos])
    ensures var r := NumberAt(chars, pos);
            r.Ok? ==>
              && r.next <= |chars| && Plainly(p) && Means(p) == r.value
              && PhraseOk(p, chars[r.next..]) && chars[pos..] == PhraseThen(p, chars[r.next..])
  {
    hide RunEnd, Numeral, Value, Apart, Digits;
    var end := RunEnd(IsDigit, chars, pos);
    var figures := FiguresAre(chars, pos);
    if At(chars, end, '.') && end + 1 < |chars| && IsDigit(chars[end + 1]) {
      var decimals := FiguresAre(chars, end + 1);
      SeenAt(chars, end, '.');
      p := Fraction(figures, decimals);
    } else {
      p := Whole(figures);
      assert |chars[end..]| >= 2 ==> chars[end..][0] == chars[end] && chars[end..][1] == chars[end + 1];
    }
  }

  lemma {:induction false} PiecesAre(chars: string, start: nat, pos: nat) returns (pieces: seq<Piece>)
    requires start <= pos <= |chars|
    ensures forall p :: p in pieces ==> PieceOk(p)
    ensures var r := StringTail(chars, start, pos);
            r.Ok? ==>
              && r.next <= |chars| && PiecesMean(pieces) == r.value
              && chars[pos..] == PiecesThen(pieces, "\"" + chars[r.next..])
    decreases |chars| - pos
  {
    if pos == |chars| {
      pieces := [];
    } else if chars[pos] == '"' {
      pieces := [];
      SeenAt(chars, pos, '"');
    } else if chars[pos] != '\\' {
      var more := PiecesAre(chars, start, pos + 1);
      pieces := [Plain(chars[pos])] + more;
      SeenAt(chars, pos, chars[pos]);
      assert pieces[1..] == more;
    } else if pos + 1 == |chars| {
      pieces := [];
    } else {
      var c := chars[pos + 1];
      var more := PiecesAre(chars, start, pos + 2);
      pieces := [if c == '"' || c == '\\' then Escaped(c) else if c == 'n' then LineBreak else Kept(c)] + more;
      assert chars[pos..] == ['\\', c] + chars[pos + 2..];
      assert pieces[1..] == more;
    }
  }

  lemma AtomIs(chars: string, pos: nat) returns (p: Phrase, gap: string)
    requires pos <= |chars|
    ensures var r := AtomAt(chars, pos);
            r.Ok? ==>
              && r.next <= |chars| && Plainly(p) && White(gap) && Means(p) == r.value
              && PhraseOk(p, gap + chars[r.next..]) && chars[pos..] == PhraseThen(p, gap + chars[r.next..])
  {
    hide StringTail, NumberAt, RawIdent, AfterIdent, Name, Apart, White, Numeral, PiecesThen, PhraseOk, Means;
    p, gap := Text([]), "";
    EmptyIsWhite();
    var r := AtomAt(chars, pos);
    if r.Ok? {
      assert "" + chars[r.next..] == chars[r.next..];
      if At(chars, pos, '"') {
        SeenAt(chars, pos, '"');
        var pieces := PiecesAre(chars, pos, pos + 1);
        p := Text(pieces);
        TextIs(pieces, chars[r.next..]);
      } else if pos < |chars| && IsDigit(chars[pos]) {
        p := NumberIs(chars, pos);
      } else {
        WordIs(chars, pos);
        var word := RawIdent(chars, pos).value;
        p, gap := AfterWordIs(chars, pos, word, pos + |word|);
      }
    }
  }

  lemma TextIs(pieces: seq<Piece>, rest: string)
    requires forall p :: p in pieces ==> PieceOk(p)
    ensures PhraseOk(Text(pieces), rest) && Means(Text(pieces)) == Lit(Str(PiecesMean(pieces)))
    ensures PhraseThen(Text(pieces), rest) == "\"" + PiecesThen(pieces, "\"" + rest)
  {
  }

  // ----- Expressions -----

  lemma FitsDown(p: Phrase, level: nat)
    requires level < UnaryLevel && Fits(p, level + 1)
    ensures Fits(p, level)
  {
  }

  lemma FitsAtom(p: Phrase)
    requires Plainly(p)
    ensures Fits(p, UnaryLevel)
  {
    assert Primary(p);
  }

  lemma FitsOf(p: Phrase)
    ensures p.Brackets? && Fits(p.inner, OrLevel) ==> Fits(p, UnaryLevel)
    ensures p.Negation? && Fits(p.operand, UnaryLevel) ==> Fits(p, UnaryLevel)
  {
    if p.Brackets? && Fits(p.inner, OrLevel) {
      assert Primary(p);
    }
  }

  lemma FitsJoined(p: Phrase, level: nat)
    requires level < UnaryLevel && AtLevel(p, level)
    requires Fits(p.left, if level == CmpLevel then AddLevel else level) && Fits(p.right, level + 1)
    ensures Fits(p, level)
  {
  }

  /** An operator that is seen, by its level and its spelling. */
  lemma OperatorIs(chars: string, level: nat, pos: nat)
    requires level < UnaryLevel && pos <= |chars|
    ensures var op := OperatorAt(chars, level, pos);
            op.Some? ==>
              && LevelOf(op.value) == level && pos + |OpText(op.value)| <= |chars|
              && chars[pos..] == Sign(op.value) + chars[pos + |OpText(op.value)|..]
  {
    var op := OperatorAt(chars, level, pos);
    if op.Some? {
      SignIsText(op.value);
      var s := OpText(op.value);
      assert chars[pos] == s[0] && (|s| == 2 ==> chars[pos + 1] == s[1]);
      assert chars[pos..pos + |s|] == s;
      Cut(chars, pos, pos + |s|);
    }
  }

  /** What a reading of an expression was a reading of: a phrase, of which white space may be left behind. */
  ghost predicate Was(r: Reading<Expr>, level: nat, p: Phrase, gap: string, chars: string, text: string) {
    r.Ok? ==>
      && r.next <= |chars| && level <= UnaryLevel && Fits(p, level) && Means(p) == r.value && White(gap)
      && PhraseOk(p, gap + chars[r.next..]) && text == PhraseThen(p, gap + chars[r.next..])
  }

  /** An expression, from where its white space ends. */
  lemma {:induction false} ExprIs(chars: string, level: nat, pos: nat) returns (p: Phrase, gap: string)
    requires pos <= |chars| && level <= UnaryLevel
    ensures Was(ExprAt(chars, level, pos), level, p, gap, chars, chars[SkipWs(chars, pos)..])
    decreases |chars| - pos, 8 - level
  {
    hide SkipWs, RestAt, UnaryAt, Was, PhraseThen, PhraseOk, Means, Fits;
    p, gap := Text([]), "";
    if level == UnaryLevel {
      p, gap := OperandIs(chars, SkipWs(chars, pos));
    } else {
      p, gap := ExprIs(chars, level + 1, pos);
      var left := ExprAt(chars, level + 1, pos);
      if left.Ok? {
        WasThat(left, level + 1, p, gap, chars, chars[SkipWs(chars, pos)..]);
        FitsLeft(p, level);
        p, gap := RestIs(chars, level, p, gap, left.next);
      } else {
        WasNothing(ExprAt(chars, level, pos), level, p, gap, chars, chars[SkipWs(chars, pos)..]);
      }
    }
  }

  lemma FitsLeft(p: Phrase, level: nat)
    requires level < UnaryLevel && Fits(p, level + 1)
    ensures Fits(p, if level == CmpLevel then AddLevel else level)
  {
    hide Fits;
    FitsDown(p, level);
    assert CmpLevel + 1 == AddLevel;
  }

  lemma WasThat(r: Reading<Expr>, level: nat, p: Phrase, gap: string, chars: string, text: string)
    requires Was(r, level, p, gap, chars, text) && r.Ok?
    ensures r.next <= |chars| && level <= UnaryLevel && Fits(p, level) && Means(p) == r.value && White(gap)
    ensures PhraseOk(p, gap + chars[r.next..]) && text == PhraseThen(p, gap + chars[r.next..])
  {
    hide Fits, Means, White, PhraseOk, PhraseThen;
  }

  lemma WasNothing(r: Reading<Expr>, level: nat, p: Phrase, gap: string, chars: string, text: string)
    requires r.Err?
    ensures Was(r, level, p, gap, chars, text)
  {
  }

  /** What follows a left operand. */
  lemma {:induction false} RestIs(chars: string, level: nat, left: Phrase, gap: string, pos: nat)
    returns (p: Phrase, after: string)
    requires pos <= |chars| && level < UnaryLevel && White(gap)
    requires Fits(left, if level == CmpLevel then AddLevel else level) && PhraseOk(left, gap + chars[pos..])
    ensures Was(RestAt(chars, level, Means(left), pos), level, p, after, chars, PhraseThen(left, gap + chars[pos..]))
    decreases |chars| - pos, 9
  {
    hide SkipWs, ExprAt, OperatorAt, Was, PhraseThen, PhraseOk, Means, Fits, White, OpText, Sign;
    var start := SkipWs(chars, pos);
    var g1 := gap + chars[pos..start];
    GapGrows(chars, pos, gap);
    OperatorIs(chars, level, start);
    var op := OperatorAt(chars, level, start);
    p, after := left, g1;
    if op.None? {
      Stopped(chars, level, left, g1, pos, PhraseThen(left, gap + chars[pos..]));
    } else {
      var behind := start + |OpText(op.value)|;
      var at := SkipWs(chars, behind);
      SkippedIs(chars, behind);
      SkipTwice(chars, behind);
      var right, more := ExprIs(chars, level + 1, at);
      var r := ExprAt(chars, level + 1, at);
      if r.Ok? {
        WasThat(r, level + 1, right, more, chars, chars[at..]);
        var joined := Joined(op.value, left, g1, chars[behind..at], right);
        JoinedIs(joined, level, chars, r.next, more);
        if level == CmpLevel {
          p, after := joined, more;
          ComparedOnce(chars, level, joined, more, pos, r.next);
        } else {
          p, after := RestIs(chars, level, joined, more, r.next);
        }
      } else {
        WasNothing(RestAt(chars, level, Means(left), pos), level, p, after, chars,
                   PhraseThen(left, gap + chars[pos..]));
      }
    }
  }

  lemma Stopped(chars: string, level: nat, left: Phrase, gap: string, pos: nat, text: string)
    requires pos <= |chars| && level < UnaryLevel && OperatorAt(chars, level, SkipWs(chars, pos)) == None && White(gap)
    requires Fits(left, if level == CmpLevel then AddLevel else level)
    requires PhraseOk(left, gap + chars[SkipWs(chars, pos)..])
    requires text == PhraseThen(left, gap + chars[SkipWs(chars, pos)..])
    ensures Was(RestAt(chars, level, Means(left), pos), level, left, gap, chars, text)
  {
    hide SkipWs, ExprAt, OperatorAt, PhraseThen, PhraseOk, Means, Fits, White;
    if level == CmpLevel {
      FitsDown(left, level);
    }
  }

  lemma JoinedIs(p: Phrase, level: nat, chars: string, next: nat, gap: string)
    requires p.Joined? && next <= |chars| && level < UnaryLevel && LevelOf(p.op) == level
    requires White(p.g1) && White(p.g2) && PhraseOk(p.right, gap + chars[next..])
    requires PhraseOk(p.left, p.g1 + (Sign(p.op) + (p.g2 + PhraseThen(p.right, gap + chars[next..]))))
    requires Fits(p.left, if level == CmpLevel then AddLevel else level) && Fits(p.right, level + 1)
    ensures Fits(p, level) && (level != CmpLevel ==> Fits(p, if level == CmpLevel then AddLevel else level))
    ensures PhraseOk(p, gap + chars[next..]) && Means(p) == Binary(p.op, Means(p.left), Means(p.right))
    ensures PhraseThen(p, gap + chars[next..])
         == PhraseThen(p.left, p.g1 + (Sign(p.op) + (p.g2 + PhraseThen(p.right, gap + chars[next..]))))
  {
    hide Fits, White, Sign;
    FitsJoined(p, level);
  }

  lemma ComparedOnce(chars: string, level: nat, p: Phrase, gap: string, pos: nat, next: nat)
    requires p.Joined? && pos <= |chars| && next <= |chars| && level == CmpLevel && White(gap)
    requires OperatorAt(chars, level, SkipWs(chars, pos)) == Some(p.op)
    requires ExprAt(chars, level + 1, SkipWs(chars, SkipWs(chars, pos) + |OpText(p.op)|)) == Ok(Means(p.right), next)
    requires Fits(p, level) && PhraseOk(p, gap + chars[next..])
    requires Means(p) == Binary(p.op, Means(p.left), Means(p.right))
    ensures Was(RestAt(chars, level, Means(p.left), pos), level, p, gap, chars, PhraseThen(p, gap + chars[next..]))
  {
    hide SkipWs, ExprAt, OperatorAt, PhraseThen, PhraseOk, Means, Fits, White, OpText;
  }

  /** A negation, a bracketed expression or an atom. */
  lemma {:induction false} OperandIs(chars: string, pos: nat) returns (p: Phrase, gap: string)
    requires pos <= |chars|
    ensures Was(UnaryAt(chars, pos), UnaryLevel, p, gap, chars, chars[pos..])
    decreases |chars| - pos, 1
  {
    hide SkipWs, ExprAt, AtomAt, Expect, Was, PhraseThen, PhraseOk, Means, Fits, White;
    p, gap := Text([]), "";
    if At(chars, pos, '!') {
      var at := SkipWs(chars, pos + 1);
      SeenAt(chars, pos, '!');
      SkippedIs(chars, pos + 1);
      SkipTwice(chars, pos + 1);
      p, gap := ExprIs(chars, UnaryLevel, at);
      p := NegationIs(chars, pos, at, p, gap);
    } else if At(chars, pos, '(') {
      var at := SkipWs(chars, pos + 1);
      SeenAt(chars, pos, '(');
      SkippedIs(chars, pos + 1);
      SkipTwice(chars, pos + 1);
      p, gap := ExprIs(chars, OrLevel, at);
      p := BracketsAre(chars, pos, at, p, gap);
      gap := "";
    } else {
      p, gap := AtomIs(chars, pos);
      AtomWas(chars, pos, p, gap);
    }
  }

  lemma AtomWas(chars: string, pos: nat, p: Phrase, gap: string)
    requires pos <= |chars| && !At(chars, pos, '!') && !At(chars, pos, '(')
    requires var r := AtomAt(chars, pos);
             r.Ok? ==>
               && r.next <= |chars| && Plainly(p) && White(gap) && Means(p) == r.value
               && PhraseOk(p, gap + chars[r.next..]) && chars[pos..] == PhraseThen(p, gap + chars[r.next..])
    ensures Was(UnaryAt(chars, pos), UnaryLevel, p, gap, chars, chars[pos..])
  {
    hide AtomAt, PhraseThen, PhraseOk, Means, Fits, White, Plainly;
    if AtomAt(chars, pos).Ok? {
      FitsAtom(p);
    }
  }

  lemma NegationIs(chars: string, pos: nat, at: nat, operand: Phrase, gap: string) returns (p: Phrase)
    requires At(chars, pos, '!') && at == SkipWs(chars, pos + 1) && at <= |chars| && White(chars[pos + 1..at])
    requires chars[pos..] == "!" + chars[pos + 1..] && chars[pos + 1..] == chars[pos + 1..at] + chars[at..]
    requires Was(ExprAt(chars, UnaryLevel, at), UnaryLevel, operand, gap, chars, chars[at..])
    ensures Was(UnaryAt(chars, pos), UnaryLevel, p, gap, chars, chars[pos..])
  {
    hide SkipWs, ExprAt, Fits, White;
    p := Negation(chars[pos + 1..at], operand);
    FitsOf(p);
  }

  lemma BracketsAre(chars: string, pos: nat, at: nat, inner: Phrase, gap: string) returns (p: Phrase)
    requires At(chars, pos, '(') && at == SkipWs(chars, pos + 1) && at <= |chars| && White(chars[pos + 1..at])
    requires chars[pos..] == "(" + chars[pos + 1..] && chars[pos + 1..] == chars[pos + 1..at] + chars[at..]
    requires Was(ExprAt(chars, OrLevel, at), OrLevel, inner, gap, chars, chars[at..])
    ensures Was(UnaryAt(chars, pos), UnaryLevel, p, "", chars, chars[pos..])
  {
    hide SkipWs, ExprAt, Fits, White, Expect, Was, PhraseThen, PhraseOk, Means, UnaryAt;
    p := inner;
    EmptyIsWhite();
    var r := ExprAt(chars, OrLevel, at);
    if r.Ok? {
      var close := Expect(chars, r.next, ")");
      WasThat(r, OrLevel, inner, gap, chars, chars[at..]);
      ExpectIs(chars, r.next, gap, ')');
      p := Brackets(chars[pos + 1..at], inner, gap + chars[r.next..SkipWs(chars, r.next)]);
      FitsOf(p);
      BracketsRead(chars, pos, at);
      if close.Ok? {
        assert "" + chars[close.next..] == chars[close.next..];
        BracketsMean(p, chars[close.next..]);
        ItWas(UnaryAt(chars, pos), UnaryLevel, p, "", chars, chars[pos..]);
      } else {
        WasNothing(UnaryAt(chars, pos), UnaryLevel, p, "", chars, chars[pos..]);
      }
    } else {
      BracketsRead(chars, pos, at);
      WasNothing(UnaryAt(chars, pos), UnaryLevel, p, "", chars, chars[pos..]);
    }
  }

  lemma BracketsRead(chars: string, pos: nat, at: nat)
    requires At(chars, pos, '(') && at == SkipWs(chars, pos + 1) && at <= |chars|
    ensures var r := ExprAt(chars, OrLevel, at);
            if r.Err? then UnaryAt(chars, pos).Err?
            else
              var close := Expect(chars, r.next, ")");
              if close.Ok? then UnaryAt(chars, pos) == Ok(r.value, close.next) else UnaryAt(chars, pos).Err?
  {
    hide SkipWs, ExprAt, Expect, AtomAt;
  }

  lemma BracketsMean(p: Phrase, rest: string)
    requires p.Brackets?
    ensures PhraseThen(p, rest) == "(" + (p.g1 + PhraseThen(p.inner, p.g2 + (")" + rest)))
    ensures PhraseOk(p, rest) <==> White(p.g1) && White(p.g2) && PhraseOk(p.inner, p.g2 + (")" + rest))
    ensures Means(p) == Means(p.inner)
  {
    hide White;
  }

  lemma ItWas(r: Reading<Expr>, level: nat, p: Phrase, gap: string, chars: string, text: string)
    requires r.Ok? && r.next <= |chars| && level <= UnaryLevel && Fits(p, level) && Means(p) == r.value && White(gap)
    requires PhraseOk(p, gap + chars[r.next..]) && text == PhraseThen(p, gap + chars[r.next..])
    ensures Was(r, level, p, gap, chars, text)
  {
    hide Fits, Means, White, PhraseOk, PhraseThen;
  }

  // ----- Settings and calls -----

  lemma AllLeft(chars: string, next: nat)
    requires next <= |chars|
    ensures "" + chars[next..] == chars[next..]
  {
  }

  /** An expression and what closes it. */
  lemma UpToIs(chars: string, pos: nat, c: char) returns (g1: string, p: Phrase, g2: string)
    requires pos <= |chars|
    ensures var r := ExprUpTo(chars, pos, [c]);
            r.Ok? ==>
              && r.next <= |chars| && Means(p) == r.value && White(g1) && White(g2)
              && ExpressionOk(p, g2 + ([c] + chars[r.next..]))
              && chars[pos..] == g1 + PhraseThen(p, g2 + ([c] + chars[r.next..]))
  {
    hide SkipWs, ExprAt, Expect, Was, PhraseThen, PhraseOk, Means, White, Disjunction;
    var at := SkipWs(chars, pos);
    g1, g2 := chars[pos..at], "";
    SkippedIs(chars, pos);
    SkipTwice(chars, pos);
    var gap;
    p, gap := ExprIs(chars, OrLevel, at);
    var r := ExprAt(chars, OrLevel, at);
    if r.Ok? {
      WasThat(r, OrLevel, p, gap, chars, chars[at..]);
      ExpectIs(chars, r.next, gap, c);
      g2 := gap + chars[r.next..SkipWs(chars, r.next)];
    }
  }

  lemma SettingIs(chars: string, pos: nat) returns (s: Setting)
    requires pos <= |chars|
    ensures var sign := Expect(chars, pos, "=");
            sign.Ok? && ExprUpTo(chars, sign.next, ";").Ok? ==>
              var r := ExprUpTo(chars, sign.next, ";");
              && r.next <= |chars| && Means(s.value) == r.value && SettingOk(s, chars[r.next..])
              && chars[pos..] == SettingThen(s, chars[r.next..])
  {
    hide SkipWs, ExprUpTo, Expect, PhraseThen, ExpressionOk, Means, White;
    s := Setting("", "", Text([]), "");
    EmptyIsWhite();
    AllLeft(chars, pos);
    ExpectIs(chars, pos, "", '=');
    var sign := Expect(chars, pos, "=");
    if sign.Ok? {
      var g1, p, g2 := UpToIs(chars, sign.next, ';');
      s := Setting("" + chars[pos..SkipWs(chars, pos)], g1, p, g2);
    }
  }

  ghost predicate WereArgs(r: Reading<seq<Expr>>, args: seq<Arg>, chars: string, text: string) {
    r.Ok? ==>
      && r.next <= |chars| && args != [] && ArgsMean(args) == r.value && ArgsOk(args, chars[r.next..])
      && text == ArgsThen(args, chars[r.next..])
  }

  lemma {:induction false} ArgsAre(chars: string, pos: nat) returns (args: seq<Arg>)
    requires pos <= |chars|
    ensures WereArgs(ArgItems(chars, pos), args, chars, chars[pos..])
    decreases |chars| - pos
  {
    hide SkipWs, ExprAt, Expect, Was, PhraseThen, PhraseOk, Means, White, Disjunction, WereArgs, ArgItems;
    args := [];
    var at := SkipWs(chars, pos);
    SkippedIs(chars, pos);
    SkipTwice(chars, pos);
    var p, gap := ExprIs(chars, OrLevel, at);
    var r := ExprAt(chars, OrLevel, at);
    if r.Err? {
      NoArgs(chars, pos, args);
    } else {
      WasThat(r, OrLevel, p, gap, chars, chars[at..]);
      var q := SkipWs(chars, r.next);
      GapGrows(chars, r.next, gap);
      var arg := Arg(chars[pos..at], p, gap + chars[r.next..q]);
      if At(chars, q, ',') {
        SeenAt(chars, q, ',');
        var more := ArgsAre(chars, q + 1);
        args := [arg] + more;
        ArgsGoOn(chars, pos, arg, more, r.next, q);
      } else {
        args := [arg];
        ArgsEnd(chars, pos, arg, r.next, q);
      }
    }
  }

  lemma NoArgs(chars: string, pos: nat, args: seq<Arg>)
    requires pos <= |chars| && ExprAt(chars, OrLevel, SkipWs(chars, pos)).Err?
    ensures WereArgs(ArgItems(chars, pos), args, chars, chars[pos..])
  {
    hide SkipWs, ExprAt, Expect;
  }

  lemma ArgsGoOn(chars: string, pos: nat, arg: Arg, more: seq<Arg>, next: nat, q: nat)
    requires pos <= next <= q < |chars| && q == SkipWs(chars, next) && At(chars, q, ',')
    requires ExprAt(chars, OrLevel, SkipWs(chars, pos)) == Ok(Means(arg.value), next)
    requires White(arg.lead) && White(arg.after) && Disjunction(arg.value)
    requires PhraseOk(arg.value, arg.after + ("," + chars[q + 1..]))
    requires chars[pos..] == arg.lead + PhraseThen(arg.value, arg.after + ("," + chars[q + 1..]))
    requires WereArgs(ArgItems(chars, q + 1), more, chars, chars[q + 1..])
    ensures WereArgs(ArgItems(chars, pos), [arg] + more, chars, chars[pos..])
  {
    hide SkipWs, ExprAt, Expect, PhraseThen, PhraseOk, Means, White, Disjunction;
    var rest := ArgItems(chars, q + 1);
    assert ArgItems(chars, pos) == Cons(Means(arg.value), rest);
    assert ([arg] + more)[1..] == more;
  }

  lemma ArgsEnd(chars: string, pos: nat, arg: Arg, next: nat, q: nat)
    requires pos <= next <= q <= |chars| && q == SkipWs(chars, next) && !At(chars, q, ',')
    requires ExprAt(chars, OrLevel, SkipWs(chars, pos)) == Ok(Means(arg.value), next)
    requires White(arg.lead) && White(arg.after) && Disjunction(arg.value)
    requires PhraseOk(arg.value, arg.after + chars[q..])
    requires chars[pos..] == arg.lead + PhraseThen(arg.value, arg.after + chars[q..])
    ensures WereArgs(ArgItems(chars, pos), [arg], chars, chars[pos..])
  {
    hide SkipWs, ExprAt, Expect, PhraseThen, PhraseOk, Means, White, Disjunction;
    var end := Expect(chars, q, ")");
    EmptyIsWhite();
    AllLeft(chars, q);
    SkipTwice(chars, next);
    ExpectIs(chars, q, "", ')');
    if end.Ok? {
      assert chars[q..SkipWs(chars, q)] == "";
      AllLeft(chars, end.next);
      assert chars[q..] == ")" + chars[end.next..];
      assert ArgItems(chars, pos) == Ok([Means(arg.value)], end.next);
      assert [arg][1..] == [] && ArgsMean([arg][1..]) == [];
      assert ArgsMean([arg]) == [Means(arg.value)];
    }
  }

  /** A call's arguments, up to its semicolon. */
  lemma InCallIs(chars: string, pos: nat) returns (c: Call)
    requires pos <= |chars|
    ensures c.lead == ""
    ensures var r := ArgsUpToSemicolon(chars, pos);
            r.Ok? ==>
              && r.next <= |chars| && ArgsMean(c.args) == r.value && CallOk(c, chars[r.next..])
              && chars[pos..] == AlfPrograms.InCall(c, chars[r.next..])
  {
    hide SkipWs, Expect, WereArgs, ArgsThen, ArgsOk, White, ArgsAt, ArgsMean;
    c := Call("", [], "", "");
    var r := ArgsAt(chars, pos);
    if r.Ok? {
      var after := TokenIs(chars, r.next, ';');
      c := BeforeSemicolon(chars, pos, after);
      var q := Expect(chars, r.next, ";");
      if q.Ok? {
        EmptyIsWhite();
        assert CallOk(c, chars[q.next..]);
      }
    }
  }

  lemma TokenIs(chars: string, pos: nat, c: char) returns (gap: string)
    requires pos <= |chars|
    ensures var r := Expect(chars, pos, [c]);
            r.Ok? ==> r.next <= |chars| && White(gap) && chars[pos..] == gap + ([c] + chars[r.next..])
  {
    hide SkipWs, Expect, White;
    EmptyIsWhite();
    AllLeft(chars, pos);
    ExpectIs(chars, pos, "", c);
    gap := "" + chars[pos..SkipWs(chars, pos)];
  }

  /** Arguments in their brackets. */
  lemma BeforeSemicolon(chars: string, pos: nat, after: string) returns (c: Call)
    requires pos <= |chars| && ArgsAt(chars, pos).Ok?
    ensures c.lead == "" && c.after == after
    ensures var r := ArgsAt(chars, pos);
            && r.next <= |chars| && ArgsMean(c.args) == r.value
            && (if c.args == [] then White(c.empty) else ArgsOk(c.args, chars[r.next..]))
            && chars[pos..] == if c.args == [] then c.empty + (")" + chars[r.next..])
               else ArgsThen(c.args, chars[r.next..])
  {
    hide SkipWs, ArgItems, WereArgs, ArgsThen, ArgsOk, White;
    var p := SkipWs(chars, pos);
    SkippedIs(chars, pos);
    if At(chars, p, ')') {
      SeenAt(chars, p, ')');
      c := Call("", [], chars[pos..p], after);
    } else {
      var args := ArgsAre(chars, pos);
      AlfPrograms.SamePlace(chars, pos);
      WereThat(ArgItems(chars, pos), args, chars, chars[pos..]);
      c := Call("", args, "", after);
    }
  }

  lemma WereThat(r: Reading<seq<Expr>>, args: seq<Arg>, chars: string, text: string)
    requires WereArgs(r, args, chars, text) && r.Ok?
    ensures r.next <= |chars| && args != [] && ArgsMean(args) == r.value && ArgsOk(args, chars[r.next..])
    ensures text == ArgsThen(args, chars[r.next..])
  {
    hide ArgsOk, ArgsThen, ArgsMean;
  }

  /** A call behind its name. */
  lemma CallIs(chars: string, pos: nat, p: nat) returns (c: Call)
    requires pos <= |chars| && p == SkipWs(chars, pos) && At(chars, p, '(')
    ensures var r := ArgsUpToSemicolon(chars, p + 1);
            r.Ok? ==>
              && r.next <= |chars| && ArgsMean(c.args) == r.value && CallOk(c, chars[r.next..])
              && chars[pos..] == CallThen(c, chars[r.next..])
  {
    hide SkipWs, ArgsUpToSemicolon, ArgsThen, ArgsOk, White, ArgsMean;
    SkippedIs(chars, pos);
    SeenAt(chars, p, '(');
    var inside := InCallIs(chars, p + 1);
    c := inside.(lead := chars[pos..p]);
  }

  // ----- Clauses without blocks -----

  /** What a reading of a statement was a reading of: a clause, of which white space may be left behind. */
  ghost predicate WasClause(r: Reading<Stmt>, c: Clause, gap: string, chars: string, text: string) {
    r.Ok? ==>
      && r.next <= |chars| && White(gap) && ClauseMeans(c) == r.value
      && ClauseOk(c, gap + chars[r.next..]) && text == ClauseThen(c, gap + chars[r.next..])
  }

  lemma NoClause(r: Reading<Stmt>, c: Clause, gap: string, chars: string, text: string)
    requires r.Err?
    ensures WasClause(r, c, gap, chars, text)
  {
  }

  lemma ThatClause(r: Reading<Stmt>, c: Clause, chars: string, text: string)
    requires r.Ok? && r.next <= |chars| && ClauseMeans(c) == r.value
    requires ClauseOk(c, chars[r.next..]) && text == ClauseThen(c, chars[r.next..])
    ensures WasClause(r, c, "", chars, text)
  {
    hide ClauseMeans, ClauseOk, ClauseThen;
    AllLeft(chars, r.next);
    EmptyIsWhite();
  }

  /** Between a keyword and a name there is white space. */
  lemma GapBetween(chars: string, pos: nat)
    requires pos <= |chars| && Apart(WordPart, chars[pos..]) && IdentAt(chars, SkipWs(chars, pos)).Ok?
    ensures chars[pos..SkipWs(chars, pos)] != ""
  {
    hide SkipWs;
    if SkipWs(chars, pos) == pos {
      IdentIs(chars, pos);
    }
  }

  lemma LetIs(chars: string, pos: nat) returns (c: Clause)
    requires pos <= |chars| && Apart(WordPart, chars[pos..])
    ensures WasClause(LetTail(chars, pos), c, "", chars, "let" + chars[pos..])
  {
    hide SkipWs, IdentAt, Expect, ExprUpTo, White, Name, SettingOk, SettingThen, Means, Apart, WasClause;
    c := LetClause("", "", Setting("", "", Text([]), ""));
    var at := SkipWs(chars, pos);
    SkippedIs(chars, pos);
    IdentIs(chars, at);
    var name := IdentAt(chars, at);
    var r := LetTail(chars, pos);
    if r.Ok? {
      GapBetween(chars, pos);
      var s := SettingIs(chars, name.next);
      c := LetClause(chars[pos..at], name.value, s);
      ThatClause(r, c, chars, "let" + chars[pos..]);
    } else {
      NoClause(r, c, "", chars, "let" + chars[pos..]);
    }
  }

  lemma SendIs(chars: string, pos: nat) returns (c: Clause)
    requires pos <= |chars| && Apart(WordPart, chars[pos..])
    ensures WasClause(SendTail(chars, pos), c, "", chars, "send" + chars[pos..])
  {
    hide SkipWs, IdentAt, Expect, ArgsUpToSemicolon, White, Name, CallOk, CallThen, ArgsMean, Apart, WasClause;
    c := SendClause("", "", Call("", [], "", ""));
    var at := SkipWs(chars, pos);
    SkippedIs(chars, pos);
    IdentIs(chars, at);
    var name := IdentAt(chars, at);
    var r := SendTail(chars, pos);
    if r.Ok? {
      GapBetween(chars, pos);
      BracketSeen(chars, name.next);
      var call := CallIs(chars, name.next, SkipWs(chars, name.next));
      c := SendClause(chars[pos..at], name.value, call);
      ThatClause(r, c, chars, "send" + chars[pos..]);
    } else {
      NoClause(r, c, "", chars, "send" + chars[pos..]);
    }
  }

  lemma BracketSeen(chars: string, pos: nat)
    requires pos <= |chars| && Expect(chars, pos, "(").Ok?
    ensures At(chars, SkipWs(chars, pos), '(') && Expect(chars, pos, "(").next == SkipWs(chars, pos) + 1
  {
    hide SkipWs;
    OneSpelled(chars, SkipWs(chars, pos), '(');
  }

  lemma NamedAre(chars: string, start: nat, word: string, pos: nat) returns (c: Clause)
    requires start <= pos <= |chars| && Name(word) && !Reserved(word)
    ensures WasClause(NamedTail(chars, start, word, pos), c, "", chars, word + chars[pos..])
  {
    hide SkipWs, IdentAt, Expect, ExprUpTo, ArgsUpToSemicolon, White, Name, SettingOk, SettingThen, CallOk, CallThen,
         ArgsMean, Means, Apart, WasClause, Reserved;
    c := InvokeClause("", Call("", [], "", ""));
    var r := NamedTail(chars, start, word, pos);
    if r.Err? {
      NoClause(r, c, "", chars, word + chars[pos..]);
    } else if At(chars, pos, '.') {
      SeenAt(chars, pos, '.');
      IdentIs(chars, pos + 1);
      var feature := IdentAt(chars, pos + 1);
      var s := SettingIs(chars, feature.next);
      c := AssignClause(word, feature.value, s);
      ThatClause(r, c, chars, word + chars[pos..]);
    } else {
      var call := CallIs(chars, pos, SkipWs(chars, pos));
      c := InvokeClause(word, call);
      ThatClause(r, c, chars, word + chars[pos..]);
    }
  }

  // ----- Conditionals and blocks -----

  ghost predicate WasBody(r: Reading<seq<Stmt>>, b: Body, chars: string, text: string) {
    r.Ok? ==>
      && r.next <= |chars| && LinesMean(b.lines) == r.value
      && BodyOk(b, "}" + chars[r.next..]) && text == BodyThen(b, "}" + chars[r.next..])
  }

  lemma ConditionIs(chars: string, pos: nat) returns (g1: string, g2: string, p: Phrase, g3: string)
    requires pos <= |chars|
    ensures var r := ConditionAt(chars, pos);
            r.Ok? ==>
              && r.next <= |chars| && Means(p) == r.value && White(g1) && White(g2) && White(g3)
              && ExpressionOk(p, g3 + (")" + chars[r.next..]))
              && chars[pos..] == g1 + ("(" + (g2 + PhraseThen(p, g3 + (")" + chars[r.next..]))))
  {
    hide SkipWs, ExprUpTo, Expect, PhraseThen, ExpressionOk, Means, White;
    g1, g2, p, g3 := "", "", Text([]), "";
    EmptyIsWhite();
    AllLeft(chars, pos);
    ExpectIs(chars, pos, "", '(');
    var open := Expect(chars, pos, "(");
    if open.Ok? {
      g1 := "" + chars[pos..SkipWs(chars, pos)];
      g2, p, g3 := UpToIs(chars, open.next, ')');
    }
  }

  /** A statement led by a word: what is read behind the word. */
  lemma ByWord(chars: string, pos: nat, start: nat, word: string)
    requires pos <= |chars| && start == SkipWs(chars, pos) && RawIdent(chars, start) == Some(word)
    ensures start + |word| <= |chars|
    ensures word == "let" ==> StatementAt(chars, pos) == LetTail(chars, start + |word|)
    ensures word == "send" ==> StatementAt(chars, pos) == SendTail(chars, start + |word|)
    ensures word == "while" || word == "for" ==> StatementAt(chars, pos).Err?
    ensures !Reserved(word) ==> StatementAt(chars, pos) == NamedTail(chars, start, word, start + |word|)
    ensures word == "if" && StatementAt(chars, pos).Ok? ==>
      var condition := ConditionAt(chars, start + |word|);
      && condition.Ok? && condition.next <= |chars|
      && var block := BlockAt(chars, condition.next);
         && block.Ok? && block.next <= |chars|
         && StatementAt(chars, pos) == ElseTail(chars, condition.value, block.value, SkipWs(chars, block.next))
  {
    hide SkipWs, RawIdent, LetTail, SendTail, NamedTail, ConditionAt, BlockAt, ElseTail;
  }

  /** A statement, from where its white space ends. */
  lemma {:induction false} ClauseIs(chars: string, pos: nat) returns (c: Clause, gap: string)
    requires pos <= |chars|
    ensures WasClause(StatementAt(chars, pos), c, gap, chars, chars[SkipWs(chars, pos)..])
    decreases |chars| - pos, 0
  {
    hide SkipWs, RawIdent, LetTail, SendTail, NamedTail, ConditionAt, BlockAt, ElseTail, StatementAt, WasClause, Name,
         Apart, Reserved;
    c, gap := InvokeClause("", Call("", [], "", "")), "";
    var start := SkipWs(chars, pos);
    var r := StatementAt(chars, pos);
    if r.Err? {
      NoClause(r, c, gap, chars, chars[start..]);
    } else {
      LedByWord(chars, pos);
      var word := RawIdent(chars, start).value;
      var p := start + |word|;
      WordIs(chars, start);
      ByWord(chars, pos, start, word);
      if word == "let" {
        c := LetIs(chars, p);
      } else if word == "send" {
        c := SendIs(chars, p);
      } else if word == "if" {
        c, gap := ConditionalIs(chars, p);
      } else {
        NotReserved(word);
        c := NamedAre(chars, start, word, p);
      }
    }
  }

  lemma NotReserved(word: string)
    requires word != "let" && word != "send" && word != "if" && word != "while" && word != "for"
    ensures !Reserved(word)
  {
  }

  lemma LedByWord(chars: string, pos: nat)
    requires pos <= |chars| && StatementAt(chars, pos).Ok?
    ensures RawIdent(chars, SkipWs(chars, pos)).Some?
    ensures RawIdent(chars, SkipWs(chars, pos)).value != "while" && RawIdent(chars, SkipWs(chars, pos)).value != "for"
    ensures pos <= SkipWs(chars, pos)
  {
    hide SkipWs, RawIdent, LetTail, SendTail, NamedTail, ConditionAt, BlockAt, ElseTail;
  }

  /** The reading of a conditional behind its first word. */
  ghost function Conditional(chars: string, pos: nat): Reading<Stmt>
    requires pos <= |chars|
  {
    match ConditionAt(chars, pos)
    case Err(e) => Err(e)
    case Ok(condition, q) =>
      match BlockAt(chars, q)
      case Err(e) => Err(e)
      case Ok(thenBranch, end) => ElseTail(chars, condition, thenBranch, SkipWs(chars, end))
  }

  lemma {:induction false} ConditionalIs(chars: string, pos: nat) returns (c: Clause, gap: string)
    requires pos <= |chars|
    ensures WasClause(Conditional(chars, pos), c, gap, chars, "if" + chars[pos..])
    decreases |chars| - pos, 2
  {
    hide SkipWs, ConditionAt, BlockAt, ElseTail, WasClause, WasBlock, WasOtherwise, ExpressionOk, PhraseThen, Means,
         White, ClauseMeans, ClauseOk, ClauseThen;
    c, gap := InvokeClause("", Call("", [], "", "")), "";
    var r := Conditional(chars, pos);
    if r.Err? {
      NoClause(r, c, gap, chars, "if" + chars[pos..]);
    } else {
      var g1, g2, p, g3 := ConditionIs(chars, pos);
      var condition := ConditionAt(chars, pos);
      var g4, b := BlockIs(chars, condition.next);
      var block := BlockAt(chars, condition.next);
      var o, after := OtherwiseIs(chars, condition.value, block.value, block.next);
      c, gap := IfClause(g1, g2, p, g3, g4, b, o), after;
      IfWas(c, gap, chars, pos, condition.value, condition.next, block.value, block.next);
    }
  }

  ghost function OtherwiseMeans(o: Option<Otherwise>): seq<Stmt> {
    match o case None => [] case Some(other) => LinesMean(other.body.lines)
  }

  ghost predicate WasBlock(r: Reading<seq<Stmt>>, gap: string, b: Body, chars: string, text: string) {
    r.Ok? ==>
      && r.next <= |chars| && White(gap) && LinesMean(b.lines) == r.value && BodyOk(b, "}" + chars[r.next..])
      && text == gap + ("{" + BodyThen(b, "}" + chars[r.next..]))
  }

  ghost predicate WasOtherwise(r: Reading<Stmt>, condition: Expr, thenBranch: seq<Stmt>, o: Option<Otherwise>,
                               gap: string, chars: string, text: string)
  {
    r.Ok? ==>
      && r.next <= |chars| && White(gap) && r.value == If(condition, thenBranch, OtherwiseMeans(o))
      && OtherwiseOk(o, gap + chars[r.next..]) && text == OtherwiseThen(o, gap + chars[r.next..])
  }

  /** The parts of a conditional put together. */
  lemma IfWas(c: Clause, gap: string, chars: string, pos: nat, condition: Expr, q: nat, thenBranch: seq<Stmt>, end: nat)
    requires c.IfClause? && pos <= |chars| && q <= |chars| && end <= |chars|
    requires ConditionAt(chars, pos) == Ok(condition, q) && BlockAt(chars, q) == Ok(thenBranch, end)
    requires Means(c.condition) == condition && White(c.g1) && White(c.g2) && White(c.g3)
    requires ExpressionOk(c.condition, c.g3 + (")" + chars[q..]))
    requires chars[pos..] == c.g1 + ("(" + (c.g2 + PhraseThen(c.condition, c.g3 + (")" + chars[q..]))))
    requires WasBlock(BlockAt(chars, q), c.g4, c.body, chars, chars[q..])
    requires WasOtherwise(ElseTail(chars, condition, thenBranch, SkipWs(chars, end)), condition, thenBranch,
                          c.otherwise,
                          gap, chars, chars[end..])
    ensures WasClause(Conditional(chars, pos), c, gap, chars, "if" + chars[pos..])
  {
    hide SkipWs, ConditionAt, BlockAt, ElseTail, ExpressionOk, PhraseThen, Means, White, OtherwiseThen, OtherwiseOk,
         BodyThen, BodyOk, LinesMean, ClauseMeans, ClauseOk, ClauseThen;
    var r := Conditional(chars, pos);
    if r.Ok? {
      IfIsMade(c, gap + chars[r.next..]);
    }
  }

  lemma IfIsMade(c: Clause, rest: string)
    requires c.IfClause?
    ensures ClauseMeans(c) == If(Means(c.condition), LinesMean(c.body.lines), OtherwiseMeans(c.otherwise))
    ensures var block := BodyThen(c.body, "}" + OtherwiseThen(c.otherwise, rest));
            var closed := c.g3 + (")" + (c.g4 + ("{" + block)));
            && ClauseThen(c, rest) == "if" + (c.g1 + ("(" + (c.g2 + PhraseThen(c.condition, closed))))
            && (ClauseOk(c, rest) <==>
                && White(c.g1) && White(c.g2) && White(c.g3) && White(c.g4) && ExpressionOk(c.condition, closed)
                && BodyOk(c.body, "}" + OtherwiseThen(c.otherwise, rest)) && OtherwiseOk(c.otherwise, rest))
  {
    hide ExpressionOk, PhraseThen, Means, White, OtherwiseThen, OtherwiseOk, BodyThen, BodyOk, LinesMean;
  }

  lemma {:induction false} BlockIs(chars: string, pos: nat) returns (gap: string, b: Body)
    requires pos <= |chars|
    ensures WasBlock(BlockAt(chars, pos), gap, b, chars, chars[pos..])
    decreases |chars| - pos, 1
  {
    hide SkipWs, Expect, White, BodyThen, BodyOk, LinesMean, BlockItems;
    EmptyIsWhite();
    gap, b := "", Body([], "");
    AllLeft(chars, pos);
    ExpectIs(chars, pos, "", '{');
    var open := Expect(chars, pos, "{");
    if open.Ok? {
      gap := "" + chars[pos..SkipWs(chars, pos)];
      b := BodyIs(chars, open.next, "");
      AllLeft(chars, open.next);
    }
  }

  lemma {:induction false} OtherwiseIs(chars: string, condition: Expr, thenBranch: seq<Stmt>, pos: nat)
    returns (o: Option<Otherwise>, gap: string)
    requires pos <= |chars|
    ensures WasOtherwise(ElseTail(chars, condition, thenBranch, SkipWs(chars, pos)), condition, thenBranch, o, gap,
                         chars,
                         chars[pos..])
    decreases |chars| - pos, 3
  {
    hide SkipWs, BlockAt, White, WasBlock, BodyThen, BodyOk, LinesMean, KeywordAt, ElseComes, Trimmed;
    o, gap := None, "";
    var p := SkipWs(chars, pos);
    EmptyIsWhite();
    SkippedIs(chars, pos);
    AlfPrograms.ElseIsThere(chars, p, chars[p..]);
    if KeywordAt(chars, p, "else") {
      ElseSeen(chars, p);
      var g2, b := BlockIs(chars, p + 4);
      o := Some(Otherwise(chars[pos..p], g2, b));
      ElseWas(chars, condition, thenBranch, pos, p, g2, b);
    } else {
      TrimmedIs(chars, pos);
      gap := chars[pos..p];
    }
  }

  lemma ElseSeen(chars: string, pos: nat)
    requires pos <= |chars| && KeywordAt(chars, pos, "else")
    ensures pos + 4 <= |chars| && chars[pos..] == "else" + chars[pos + 4..]
  {
    AlfPrograms.ElseIsThere(chars, pos, chars[pos..]);
    Cut(chars, pos, pos + 4);
  }

  lemma ElseWas(chars: string, condition: Expr, thenBranch: seq<Stmt>, pos: nat, p: nat, g2: string, b: Body)
    requires pos <= p && p + 4 <= |chars| && KeywordAt(chars, p, "else") && White(chars[pos..p])
    requires chars[pos..] == chars[pos..p] + chars[p..] && chars[p..] == "else" + chars[p + 4..]
    requires WasBlock(BlockAt(chars, p + 4), g2, b, chars, chars[p + 4..])
    ensures WasOtherwise(ElseTail(chars, condition, thenBranch, p), condition, thenBranch,
                         Some(Otherwise(chars[pos..p], g2, b)), "", chars, chars[pos..])
  {
    hide BlockAt, White, BodyThen, BodyOk, LinesMean, KeywordAt;
    EmptyIsWhite();
    var block := BlockAt(chars, p + 4);
    if block.Ok? {
      AllLeft(chars, block.next);
    }
  }

  // ----- Blocks and programs, line by line -----

  lemma NoLinesIs(last: string, rest: string)
    requires White(last)
    ensures BodyThen(Body([], last), rest) == last + rest && BodyOk(Body([], last), rest) && LinesMean([]) == []
  {
    hide White;
  }

  /** A line in front of others. */
  lemma OneMoreLine(line: Line, b: Body, rest: string)
    requires White(line.lead) && ClauseOk(line.clause, BodyThen(b, rest)) && BodyOk(b, rest)
    ensures var more := Body([line] + b.lines, b.last);
            && BodyOk(more, rest) && BodyThen(more, rest) == line.lead + ClauseThen(line.clause, BodyThen(b, rest))
            && LinesMean(more.lines) == [ClauseMeans(line.clause)] + LinesMean(b.lines)
  {
    hide White, ClauseOk, ClauseThen, ClauseMeans;
    assert ([line] + b.lines)[1..] == b.lines;
  }

  lemma ThatWas(r: Reading<Stmt>, c: Clause, gap: string, chars: string, text: string)
    requires WasClause(r, c, gap, chars, text) && r.Ok?
    ensures r.next <= |chars| && White(gap) && ClauseMeans(c) == r.value
    ensures ClauseOk(c, gap + chars[r.next..]) && text == ClauseThen(c, gap + chars[r.next..])
  {
    hide White, ClauseMeans, ClauseOk, ClauseThen;
  }

  /** What remains of a block, white space left in front of it included. */
  lemma {:induction false} BodyIs(chars: string, pos: nat, gap: string) returns (b: Body)
    requires pos <= |chars| && White(gap)
    ensures WasBody(BlockItems(chars, pos), b, chars, gap + chars[pos..])
    decreases |chars| - pos, 1
  {
    hide SkipWs, White, BodyThen, BodyOk, LinesMean, StatementAt, WasClause, ClauseOk, ClauseThen, ClauseMeans;
    b := Body([], "");
    var p := SkipWs(chars, pos);
    GapGrows(chars, pos, gap);
    if At(chars, p, '}') {
      SeenAt(chars, p, '}');
      b := Body([], gap + chars[pos..p]);
      NoLinesIs(gap + chars[pos..p], "}" + chars[p + 1..]);
    } else if p < |chars| {
      SkipTwice(chars, pos);
      var c, after := ClauseIs(chars, p);
      var first := StatementAt(chars, p);
      if first.Ok? {
        ThatWas(first, c, after, chars, chars[p..]);
        var more := BodyIs(chars, first.next, after);
        var r := BlockItems(chars, first.next);
        b := Body([Line(gap + chars[pos..p], c)] + more.lines, more.last);
        if r.Ok? {
          OneMoreLine(Line(gap + chars[pos..p], c), more, "}" + chars[r.next..]);
        }
      }
    }
  }

  /** What remains of a program, likewise. */
  lemma {:induction false} LinesAre(chars: string, pos: nat, gap: string) returns (b: Body)
    requires pos <= |chars| && White(gap)
    ensures var r := ProgramItems(chars, SkipWs(chars, pos));
            r.Ok? ==> LinesMean(b.lines) == r.value && BodyOk(b, "") && gap + chars[pos..] == BodyThen(b, "")
    decreases |chars| - pos
  {
    hide SkipWs, White, BodyThen, BodyOk, LinesMean, StatementAt, WasClause, ClauseOk, ClauseThen, ClauseMeans;
    b := Body([], "");
    var p := SkipWs(chars, pos);
    GapGrows(chars, pos, gap);
    if p == |chars| {
      b := Body([], gap + chars[pos..p]);
      NoLinesIs(gap + chars[pos..p], "");
      assert chars[p..] == "";
    } else {
      SkipTwice(chars, pos);
      var c, after := ClauseIs(chars, p);
      var first := StatementAt(chars, p);
      if first.Ok? {
        ThatWas(first, c, after, chars, chars[p..]);
        var more := LinesAre(chars, first.next, after);
        b := Body([Line(gap + chars[pos..p], c)] + more.lines, more.last);
        if ProgramItems(chars, SkipWs(chars, first.next)).Ok? {
          OneMoreLine(Line(gap + chars[pos..p], c), more, "");
        }
      }
    }
  }

  /** Parsing succeeds exactly on the texts that some program spells, and its answer is what that program means. */
  lemma ParsesIff(text: string)
    ensures Program(text).Ok? <==> exists b :: BodyOk(b, "") && text == BodyThen(b, "")
    ensures forall b :: BodyOk(b, "") && text == BodyThen(b, "") ==> Program(text) == Ok(LinesMean(b.lines), |text|)
  {
    hide SkipWs, White, BodyThen, BodyOk, LinesMean, ProgramItems;
    forall b | BodyOk(b, "") && text == BodyThen(b, "")
      ensures Program(text) == Ok(LinesMean(b.lines), |text|)
    {
      AlfPrograms.LaidOutIsParsed(b);
    }
    if Program(text).Ok? {
      EmptyIsWhite();
      var b := LinesAre(text, 0, "");
      assert "" + text[0..] == text;
      assert BodyOk(b, "") && text == BodyThen(b, "");
    }
  }

  /** Two ways of laying out that come to the same text are of the same program: the notation is unambiguous. */
  lemma LayoutDecides(a: Body, b: Body)
    requires BodyOk(a, "") && BodyOk(b, "") && BodyThen(a, "") == BodyThen(b, "")
    ensures LinesMean(a.lines) == LinesMean(b.lines)
  {
    hide BodyThen, BodyOk, LinesMean;
    AlfPrograms.LaidOutIsParsed(a);
    AlfPrograms.LaidOutIsParsed(b);
  }
}
