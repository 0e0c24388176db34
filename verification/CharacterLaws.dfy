/** What trimming and counting do to a text, apart from how they go through it. */
module CharacterLaws {
  import opened Characters

  /** ECMAScript's white space and line terminators, by code point. */
  lemma SpacesAre(c: char)
    ensures Space(c) <==> c as int in {
              9, 10, 11, 12, 13, 32, 160, 5760, 8192, 8193, 8194, 8195, 8196, 8197, 8198, 8199, 8200, 8201, 8202,
              8232, 8233, 8239, 8287, 12288, 65279}
  {
  }

  lemma AlnumsAre(c: char)
    ensures AsciiAlnum(c) <==> 48 <= c as int <= 57 || 65 <= c as int <= 90 || 97 <= c as int <= 122
  {
  }

  predicate Spaces(s: string) { forall i :: 0 <= i < |s| ==> Space(s[i]) }

  /** No white space at either end. */
  predicate Bare(s: string) { s != "" ==> !Space(s[0]) && !Space(s[|s| - 1]) }

  lemma {:induction false} TrimStartKeeps(s: string) returns (a: string)
    ensures s == a + TrimStart(s) && Spaces(a) && (TrimStart(s) != "" ==> !Space(TrimStart(s)[0]))
  {
    if s != "" && Space(s[0]) {
      a := TrimStartKeeps(s[1..]);
      a := [s[0]] + a;
    } else {
      a := "";
    }
  }

  lemma {:induction false} TrimEndKeeps(s: string) returns (b: string)
    ensures s == TrimEnd(s) + b && Spaces(b) && (TrimEnd(s) != "" ==> !Space(TrimEnd(s)[|TrimEnd(s)| - 1]))
  {
    if s != "" && Space(s[|s| - 1]) {
      b := TrimEndKeeps(s[..|s| - 1]);
      b := b + [s[|s| - 1]];
    } else {
      b := "";
    }
  }

  /** `x` is `s` without the white space around it. */
  ghost predicate Trimmed(s: string, x: string) {
    Bare(x) && exists a, b :: Spaces(a) && Spaces(b) && s == a + x + b
  }

  lemma TrimTrims(s: string)
    ensures Trimmed(s, Trim(s))
  {
    var a := TrimStartKeeps(s);
    var b := TrimEndKeeps(TrimStart(s));
    var x := Trim(s);
    assert s == a + x + b;
    if x != "" { assert x[0] == TrimStart(s)[0]; }
  }

  lemma {:induction false} TrimStartDrops(a: string, s: string)
    requires Spaces(a) && (s != "" ==> !Space(s[0]))
    ensures TrimStart(a + s) == s
  {
    if a == "" {
      assert a + s == s;
    } else {
      assert (a + s)[0] == a[0] && (a + s)[1..] == a[1..] + s;
      TrimStartDrops(a[1..], s);
    }
  }

  lemma {:induction false} TrimEndDrops(s: string, b: string)
    requires Spaces(b) && (s != "" ==> !Space(s[|s| - 1]))
    ensures TrimEnd(s + b) == s
    decreases |b|
  {
    if b == "" {
      assert s + b == s;
    } else {
      var n := |b| - 1;
      assert (s + b)[|s + b| - 1] == b[n] && (s + b)[..|s + b| - 1] == s + b[..n];
      TrimEndDrops(s, b[..n]);
    }
  }

  lemma {:induction false} SpacesTrimmed(s: string)
    requires Spaces(s)
    ensures TrimStart(s) == ""
  {
    if s != "" { SpacesTrimmed(s[1..]); }
  }

  /** Trimming gives the text without the white space around it, and nothing else does. */
  lemma TrimExactly(s: string, x: string)
    ensures Trim(s) == x <==> Trimmed(s, x)
  {
    TrimTrims(s);
    if Trimmed(s, x) {
      var a, b :| Spaces(a) && Spaces(b) && s == a + x + b;
      if x == "" {
        assert s == a + b && Spaces(s);
        SpacesTrimmed(s);
      } else {
        assert s == a + (x + b);
        TrimStartDrops(a, x + b);
        TrimEndDrops(x, b);
      }
    }
  }

  /** The length of a text in UTF-16 code units: one for each character, and one more beyond the basic plane. */
  lemma {:induction false} UnitsExactly(a: string, c: char, b: string)
    ensures Units("") == 0 && Units([c]) == (if c as int >= 0x1_0000 then 2 else 1)
    ensures Units(a + b) == Units(a) + Units(b)
  {
    assert [c][1..] == "";
    if a == "" {
      assert a + b == b;
    } else {
      assert (a + b)[1..] == a[1..] + b;
      UnitsExactly(a[1..], c, b);
    }
  }
}
