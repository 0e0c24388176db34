/** What a range may look like, character by character. */
module ChangeRangeLaws {
  import opened Wrappers
  import opened ChangeRange

  /** ASCII letters and digits, and the marks of git's revision syntax. */
  predicate Written(c: char) {
    48 <= c as int <= 57 || 65 <= c as int <= 90 || 97 <= c as int <= 122
    || c in {'.', '_', '/', '~', '^', '@', '{', '}', '-'}
  }

  lemma WrittenExactly(c: char)
    ensures RefChar(c) <==> Written(c)
  {
    var marks := "._/~^@{}-";
    assert marks[0] == '.' && marks[1] == '_' && marks[2] == '/' && marks[3] == '~' && marks[4] == '^';
    assert marks[5] == '@' && marks[6] == '{' && marks[7] == '}' && marks[8] == '-';
  }

  /** An end git cannot take for an option, a range of its own, or a checkout from the reflog. */
  ghost predicate Harmless(side: string) {
    && side != "" && side[0] != '-'
    && (forall i :: 0 <= i < |side| - 1 ==> !(side[i] == '.' && side[i + 1] == '.'))
    && (forall i :: 0 <= i < |side| - 2 ==> !(side[i] == '@' && side[i + 1] == '{' && side[i + 2] == '-'))
  }

  lemma ReflogAt(side: string, i: int)
    ensures At(side, "@{-", i)
       <==> 0 <= i && i + 3 <= |side| && side[i] == '@' && side[i + 1] == '{' && side[i + 2] == '-'
  {
    if 0 <= i && i + 3 <= |side| {
      var t := side[i..i + 3];
      assert |t| == 3 && t[0] == side[i] && t[1] == side[i + 1] && t[2] == side[i + 2];
      assert t == "@{-" <==> t[0] == '@' && t[1] == '{' && t[2] == '-';
    }
  }

  lemma HarmlessExactly(side: string)
    ensures SafeEnd(side) <==> Harmless(side)
  {
    if Harmless(side) {
      if i :| 0 <= i <= |side| && At(side, "..", i) { DotsAt(side, i); }
      if i :| 0 <= i <= |side| && At(side, "@{-", i) { ReflogAt(side, i); }
    }
    if SafeEnd(side) {
      forall i | 0 <= i < |side| - 1 ensures !(side[i] == '.' && side[i + 1] == '.') {
        assert !At(side, "..", i);
        DotsAt(side, i);
      }
      forall i | 0 <= i < |side| - 2 ensures !(side[i] == '@' && side[i + 1] == '{' && side[i + 2] == '-') {
        assert !At(side, "@{-", i);
        ReflogAt(side, i);
      }
    }
  }

  ghost predicate AllWritten(s: string) { forall i :: 0 <= i < |s| ==> Written(s[i]) }

  lemma AllWrittenExactly(s: string)
    ensures RefChars(s) <==> AllWritten(s)
  {
    forall c: char ensures RefChar(c) <==> Written(c) { WrittenExactly(c); }
  }

  /** One revision, or two with two or three dots between them, of 1 to 200 characters each. */
  ghost predicate Shaped(s: string) {
    AllWritten(s) && (1 <= |s| <= 200 || exists a, b :: InParts(s, a, b))
  }

  ghost predicate InParts(s: string, a: string, b: string) {
    1 <= |a| <= 200 && 1 <= |b| <= 200 && (s == a + ".." + b || s == a + "..." + b)
  }

  lemma PartsAt(s: string, a: string, b: string)
    requires InParts(s, a, b)
    ensures SplitsAt(s, |a|)
  {
    var n := |a|;
    DotsAt(s, n);
    assert s[n] == '.' && s[n + 1] == '.';
    if s == a + "..." + b { assert s[n + 2] == '.'; }
  }

  lemma SplitInParts(s: string, i: int) returns (a: string, b: string)
    requires 1 <= i <= 200 && SplitsAt(s, i)
    ensures InParts(s, a, b)
  {
    a := s[..i];
    DotsAt(s, i);
    if 1 <= |s| - i - 2 <= 200 {
      b := s[i + 2..];
      assert s == a + ".." + b;
    } else {
      b := s[i + 3..];
      assert s == a + "..." + b;
    }
  }

  lemma ShapeExactly(s: string)
    ensures RangeShape(s) <==> Shaped(s)
  {
    AllWrittenExactly(s);
    if a, b :| InParts(s, a, b) { PartsAt(s, a, b); }
    if RangeShape(s) && |s| > 200 {
      var i :| 1 <= i <= 200 && SplitsAt(s, i);
      var a, b := SplitInParts(s, i);
    }
  }

  /** A text is refused for its shape, or for an end that could do harm; every other is read as it was printed. */
  lemma ReadsExactly(s: string)
    ensures Parsed(s) == Err(Invalid) <==> !Shaped(s)
    ensures Parsed(s).Ok? ==> Harmless(Parsed(s).value.from) && Harmless(Parsed(s).value.to)
    ensures Shaped(s) && Parsed(s).Err? ==>
              var r := Cut(s);
              (Print(r) == s || r == Range(s, "HEAD", false)) && !(Harmless(r.from) && Harmless(r.to))
  {
    ShapeExactly(s);
    CutPrints(s);
    HarmlessExactly(Cut(s).from);
    HarmlessExactly(Cut(s).to);
  }

  /** What a printed range needs to be read back. */
  ghost predicate ReadsBack(r: Range) {
    && AllWritten(r.from) && AllWritten(r.to) && Harmless(r.from) && Harmless(r.to)
    && |r.from| <= 200 && r.from[|r.from| - 1] != '.'
    && (|r.to| <= 200 || (r.symmetric && r.to[0] == '.' && |r.to| == 201 && |r.from| < 200))
    && (r.symmetric || r.to[0] != '.')
  }

  lemma ReadsBackExactly(r: Range)
    ensures Parsed(Print(r)) == Ok(r) <==> ReadsBack(r)
  {
    ParseUndoesPrint(r);
    AllWrittenExactly(r.from);
    AllWrittenExactly(r.to);
    HarmlessExactly(r.from);
    HarmlessExactly(r.to);
  }
}
