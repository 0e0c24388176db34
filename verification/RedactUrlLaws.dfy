/** Which values `redactUrl` masks, wherever in a text they stand. */
module RedactUrlLaws {
  import opened Wrappers
  import opened Characters
  import opened CharacterLaws
  import opened Redaction
  import opened RedactUrl

  /** What ends a value: the start of another parameter, white space, a quote or an angle bracket. */
  predicate EndsValue(c: char) {
    c == '&' || c == ';' || c == '#' || c == '"' || c == '\'' || c == '<' || c == '>' || Space(c)
  }

  /** What cannot be part of a name. */
  predicate EndsName(c: char) { EndsValue(c) || c == '?' || c == '=' }

  /** A name and a value as they can stand in a query or a fragment, with `rest` behind them. */
  ghost predicate Parameter(separator: char, name: string, value: string, rest: string) {
    && (separator == '?' || separator == '&' || separator == ';' || separator == '#')
    && name != "" && (forall i :: 0 <= i < |name| ==> !EndsName(name[i]))
    && (forall i :: 0 <= i < |value| ==> !EndsValue(value[i]))
    && (rest != "" ==> EndsValue(rest[0]))
  }

  /** The names of credentials, compared in lower case and decoded if they can be. */
  predicate NamesACredential(decode: Decoder, lower: Lowercase, name: string) {
    var plain := lower(match decode(name) case Some(decoded) => decoded case None => name);
    || plain == "token" || plain == "access_token" || plain == "refresh_token" || plain == "id_token"
    || plain == "code" || plain == "key" || plain == "api_key" || plain == "apikey"
    || plain == "secret" || plain == "client_secret" || plain == "signature" || plain == "sig"
    || plain == "password" || plain == "pwd" || plain == "otp" || plain == "session" || plain == "auth"
  }

  lemma CredentialsAre(decode: Decoder, lower: Lowercase, name: string)
    ensures Sensitive(decode, lower, name) <==> NamesACredential(decode, lower, name)
  {
  }

  function Assigned(separator: char, name: string, value: string): string { [separator] + name + "=" + value }

  /** The parameter with its value masked, if it names a credential and has one. */
  function MaskedIfSecret(decode: Decoder, lower: Lowercase, separator: char, name: string, value: string): string {
    Assigned(separator, name, if value != "" && NamesACredential(decode, lower, name) then "«redacted»" else value)
  }

  /** A parameter at the start of a text: its value is masked exactly when it names a credential and has one. */
  lemma FirstParameter(
    decode: Decoder, lower: Lowercase, separator: char, name: string, value: string, rest: string)
    requires Parameter(separator, name, value, rest)
    ensures RedactUrl.RedactUrl(decode, lower, Assigned(separator, name, value) + rest)
         == MaskedIfSecret(decode, lower, separator, name, value) + RedactUrl.RedactUrl(decode, lower, rest)
  {
    var p, t := Param(separator, name, value), Assigned(separator, name, value) + rest;
    CredentialsAre(decode, lower, name);
    assert Matches(p, rest);
    MatchesParam(p, rest);
    assert p.Text() + rest == t && t[|p.Text()|..] == rest;
  }

  /** What is scanned as a parameter is one, with all of its value. */
  lemma ScannedIsParameter(t: string)
    requires ParamAt(t).Some?
    ensures var p := ParamAt(t).value;
            && t == Assigned(p.separator, p.name, p.value) + t[|p.Text()|..]
            && Parameter(p.separator, p.name, p.value, t[|p.Text()|..])
  {
    ParamMatches(t);
  }

  /** Text in which no parameter starts is left as it is. */
  lemma {:induction false} NoParameterNoChange(decode: Decoder, lower: Lowercase, t: string)
    requires forall i :: 0 <= i < |t| ==> ParamAt(t[i..]).None?
    ensures RedactUrl.RedactUrl(decode, lower, t) == t
  {
    if t != "" {
      assert t[0..] == t;
      forall i | 0 <= i < |t[1..]| ensures ParamAt(t[1..][i..]).None? { assert t[1..][i..] == t[i + 1..]; }
      NoParameterNoChange(decode, lower, t[1..]);
      AtOther(decode, lower, t);
    }
  }

  /** A name and what follows it are the same in a longer text that stops them where this one does. */
  lemma SameTail(tail: string, b: string, n: nat)
    requires n == Run(NameChar, tail) && b != "" && !NameChar(b[0]) && b[0] != '='
    ensures Run(NameChar, tail + b) == n
    ensures n == |tail| || tail[n] != '=' ==> n == |tail + b| || (tail + b)[n] != '='
    ensures n < |tail| ==> (tail + b)[..n] == tail[..n] && (tail + b)[n] == tail[n]
    ensures n < |tail| ==> (tail + b)[n..][1..] == tail[n..][1..] + b
  {
    RunStops(NameChar, tail, b);
  }

  lemma SameValue(after: string, b: string)
    requires b != "" && !ValueChar(b[0])
    ensures (after + b)[..Run(ValueChar, after + b)] == after[..Run(ValueChar, after)]
  {
    RunStops(ValueChar, after, b);
  }

  /** Scanning stops where a parameter must start. */
  lemma SameParam(a: string, b: string)
    requires a != "" && b != "" && (b[0] == '&' || b[0] == ';' || b[0] == '#')
    ensures ParamAt(a + b) == ParamAt(a)
  {
    var tail := a[1..];
    var n := Run(NameChar, tail);
    assert (a + b)[0] == a[0] && (a + b)[1..] == tail + b;
    if Separator(a[0]) {
      SameTail(tail, b, n);
      if n < |tail| { SameValue(tail[n..][1..], b); }
    }
  }

  lemma {:induction false} RunStops(p: char -> bool, a: string, b: string)
    requires b != "" && !p(b[0])
    ensures Run(p, a + b) == Run(p, a)
  {
    if a == "" {
      assert a + b == b;
    } else if p(a[0]) {
      assert (a + b)[1..] == a[1..] + b;
      RunStops(p, a[1..], b);
    }
  }

  /** Redacting `t` gives `r`. */
  predicate Gives(decode: Decoder, lower: Lowercase, t: string, r: string) {
    RedactUrl.RedactUrl(decode, lower, t) == r
  }

  lemma ParamGives(decode: Decoder, lower: Lowercase, t: string, p: Piece, rest: string, r: string)
    requires ParamAt(t) == Some(p) && rest == t[|p.Text()|..] && Gives(decode, lower, rest, r)
    ensures Gives(decode, lower, t, Rewrite(decode, lower, p).Text() + r)
  {
    AtParam(decode, lower, t, p);
  }

  lemma OtherGives(decode: Decoder, lower: Lowercase, t: string, rest: string, r: string)
    requires t != "" && ParamAt(t).None? && rest == t[1..] && Gives(decode, lower, rest, r)
    ensures Gives(decode, lower, t, [t[0]] + r)
  {
    AtOther(decode, lower, t);
  }

  lemma Longer(a: string, b: string, n: nat)
    requires 0 < n <= |a|
    ensures (a + b)[n..] == a[n..] + b && (a + b)[0] == a[0]
  {
  }

  lemma Regroup(x: string, y: string, z: string)
    ensures (x + y) + z == x + (y + z)
  {
  }

  /** What stands before and behind such a place is redacted on its own. */
  lemma {:induction false} GivesApart(decode: Decoder, lower: Lowercase, a: string, b: string, r: string)
    returns (x: string)
    requires b != "" && (b[0] == '&' || b[0] == ';' || b[0] == '#') && Gives(decode, lower, b, r)
    ensures Gives(decode, lower, a, x) && Gives(decode, lower, a + b, x + r)
    decreases |a|
  {
    if a == "" {
      x := "";
      assert a + b == b && x + r == r;
    } else {
      SameParam(a, b);
      var p := ParamAt(a);
      if p.Some? {
        var n, first := |p.value.Text()|, Rewrite(decode, lower, p.value).Text();
        x := GivesApart(decode, lower, a[n..], b, r);
        Longer(a, b, n);
        ParamGives(decode, lower, a, p.value, a[n..], x);
        ParamGives(decode, lower, a + b, p.value, a[n..] + b, x + r);
        Regroup(first, x, r);
        x := first + x;
      } else {
        x := GivesApart(decode, lower, a[1..], b, r);
        Longer(a, b, 1);
        OtherGives(decode, lower, a, a[1..], x);
        OtherGives(decode, lower, a + b, a[1..] + b, x + r);
        Regroup([a[0]], x, r);
        x := [a[0]] + x;
      }
    }
  }

  lemma RedactsApart(decode: Decoder, lower: Lowercase, a: string, b: string)
    requires b != "" && (b[0] == '&' || b[0] == ';' || b[0] == '#')
    ensures RedactUrl.RedactUrl(decode, lower, a + b)
         == RedactUrl.RedactUrl(decode, lower, a) + RedactUrl.RedactUrl(decode, lower, b)
  {
    var x := GivesApart(decode, lower, a, b, RedactUrl.RedactUrl(decode, lower, b));
  }

  lemma AtParam(decode: Decoder, lower: Lowercase, t: string, p: Piece)
    requires ParamAt(t) == Some(p)
    ensures RedactUrl.RedactUrl(decode, lower, t)
         == Rewrite(decode, lower, p).Text() + RedactUrl.RedactUrl(decode, lower, t[|p.Text()|..])
  {
  }

  lemma AtOther(decode: Decoder, lower: Lowercase, t: string)
    requires t != "" && ParamAt(t).None?
    ensures RedactUrl.RedactUrl(decode, lower, t) == [t[0]] + RedactUrl.RedactUrl(decode, lower, t[1..])
  {
  }

  /** Text without separators. */
  predicate NoSeparator(a: string) {
    forall i :: 0 <= i < |a| ==> a[i] != '?' && a[i] != '&' && a[i] != ';' && a[i] != '#'
  }

  /**
   * Wherever a parameter stands that is introduced by `&`, `;` or `#`, or is the first of its text, its value is
   * masked exactly when it is not empty and its name is that of a credential; everything else stays.
   */
  lemma ParameterMasked(
    decode: Decoder, lower: Lowercase, a: string, separator: char, name: string, value: string, rest: string)
    requires Parameter(separator, name, value, rest) && (separator == '?' ==> NoSeparator(a))
    ensures RedactUrl.RedactUrl(decode, lower, a + (Assigned(separator, name, value) + rest))
         == (if separator == '?' then a else RedactUrl.RedactUrl(decode, lower, a))
            + (MaskedIfSecret(decode, lower, separator, name, value) + RedactUrl.RedactUrl(decode, lower, rest))
  {
    var t := Assigned(separator, name, value) + rest;
    FirstParameter(decode, lower, separator, name, value, rest);
    assert t[0] == separator;
    if separator == '?' {
      PlainRun(decode, lower, a, t);
    } else {
      RedactsApart(decode, lower, a, t);
    }
  }
}
