/**
 * `redactUrl` (redaction.ts): the scanner for `name=value` parameters and its rewrite. `decode` is
 * `decodeURIComponent` (none: it throws) and `lower` is `toLowerCase`; nothing is assumed of either.
 */
module RedactUrl {
  import opened Wrappers
  import opened Characters
  import opened SecretForms
  import opened Redaction

  type Decoder = string -> Option<string>
  type Lowercase = string -> string

  const SENSITIVE_URL_PARAMS: set<string> := {
    "token", "access_token", "refresh_token", "id_token", "code", "key", "api_key", "apikey", "secret",
    "client_secret", "signature", "sig", "password", "pwd", "otp", "session", "auth"
  }

  function DecodedName(decode: Decoder, lower: Lowercase, raw: string): string {
    match decode(raw)
    case Some(name) => lower(name)
    case None => lower(raw)
  }

  predicate Sensitive(decode: Decoder, lower: Lowercase, name: string) {
    DecodedName(decode, lower, name) in SENSITIVE_URL_PARAMS
  }

  // ---------- scanning ----------

  predicate Separator(c: char) { c == '?' || c == '&' || c == ';' || c == '#' }

  predicate Delimiter(c: char) { Space(c) || c == '"' || c == '\'' || c == '<' || c == '>' }

  predicate NameChar(c: char) { !Separator(c) && c != '=' && !Delimiter(c) }

  predicate ValueChar(c: char) { c != '&' && c != ';' && c != '#' && !Delimiter(c) }

  /** How many characters of `t` in a row `p` holds of. */
  function Run(p: char -> bool, t: string): (n: nat)
    ensures n <= |t| && (n < |t| ==> !p(t[n]))
    ensures forall i :: 0 <= i < n ==> p(t[i])
  {
    if t == "" || !p(t[0]) then 0 else 1 + Run(p, t[1..])
  }

  /** A stretch of a text: one character outside every parameter, or a parameter. */
  datatype Piece = Plain(c: char) | Param(separator: char, name: string, value: string) {
    function Text(): string {
      match this
      case Plain(c) => [c]
      case Param(separator, name, value) => [separator] + name + "=" + value
    }
  }

  lemma ParamPrefix(t: string, n: nat, v: nat)
    requires |t| >= n + 2 + v && t[1..][n] == '='
    ensures Param(t[0], t[1..][..n], t[1..][n..][1..][..v]).Text() == t[..n + 2 + v]
  {
    assert t[1..][..n] == t[1..n + 1];
    assert t[1..][n..][1..][..v] == t[n + 2..n + 2 + v];
    assert [t[0]] + t[1..n + 1] + "=" == t[..n + 2];
  }

  /** The parameter the pattern matches at the start of `t`, if it matches there. */
  function ParamAt(t: string): (p: Option<Piece>)
    ensures p.Some? ==> p.value.Param? && p.value.Text() <= t
  {
    if t == "" || !Separator(t[0]) then None
    else
      var tail := t[1..];
      var n := Run(NameChar, tail);
      if n == 0 || n == |tail| || tail[n] != '=' then None
      else
        var after := tail[n..][1..];
        var value := after[..Run(ValueChar, after)];
        ParamPrefix(t, n, |value|);
        Some(Param(t[0], tail[..n], value))
  }

  /** The text cut by the pattern, scanning from the left. */
  function Pieces(t: string): seq<Piece>
    decreases |t|
  {
    if t == "" then []
    else
      match ParamAt(t)
      case Some(p) => [p] + Pieces(t[|p.Text()|..])
      case None => [Plain(t[0])] + Pieces(t[1..])
  }

  // ---------- rewriting ----------

  function Rewrite(decode: Decoder, lower: Lowercase, p: Piece): Piece {
    if p.Param? && p.value != "" && Sensitive(decode, lower, p.name) then p.(value := MASK) else p
  }

  function RedactUrl(decode: Decoder, lower: Lowercase, url: string): string
    decreases |url|
  {
    if url == "" then ""
    else
      match ParamAt(url)
      case Some(p) => Rewrite(decode, lower, p).Text() + RedactUrl(decode, lower, url[|p.Text()|..])
      case None => [url[0]] + RedactUrl(decode, lower, url[1..])
  }

  // ---------- the laws ----------

  function Joined(ps: seq<Piece>): string {
    if ps == [] then "" else ps[0].Text() + Joined(ps[1..])
  }

  function RewriteAll(decode: Decoder, lower: Lowercase, ps: seq<Piece>): seq<Piece> {
    seq(|ps|, i requires 0 <= i < |ps| => Rewrite(decode, lower, ps[i]))
  }

  lemma {:induction false} RunExact(p: char -> bool, a: string, b: string)
    requires (forall i :: 0 <= i < |a| ==> p(a[i])) && (b == "" || !p(b[0]))
    ensures Run(p, a + b) == |a|
  {
    if a == "" {
      assert a + b == b;
    } else {
      assert (a + b)[1..] == a[1..] + b;
      RunExact(p, a[1..], b);
    }
  }

  /** What the pattern needs to match a parameter: these characters, in these places. */
  predicate Matches(p: Piece, rest: string) {
    && p.Param?
    && Separator(p.separator)
    && p.name != ""
    && (forall i :: 0 <= i < |p.name| ==> NameChar(p.name[i]))
    && (forall i :: 0 <= i < |p.value| ==> ValueChar(p.value[i]))
    && (rest == "" || !ValueChar(rest[0]))
  }

  lemma ParamMatches(t: string)
    requires ParamAt(t).Some?
    ensures Matches(ParamAt(t).value, t[|ParamAt(t).value.Text()|..])
  {
    var p := ParamAt(t).value;
    var after := t[1..][|p.name|..][1..];
    assert t[|p.Text()|..] == after[|p.value|..];
  }

  lemma Cut(a: string, b: string)
    ensures (a + b)[..|a|] == a && (a + b)[|a|..] == b
  {
  }

  lemma ParamFound(t: string, tail: string, after: string, n: nat)
    requires t != "" && Separator(t[0]) && t[1..] == tail && n == Run(NameChar, tail)
    requires 0 < n < |tail| && tail[n] == '=' && tail[n..][1..] == after
    ensures ParamAt(t) == Some(Param(t[0], tail[..n], after[..Run(ValueChar, after)]))
  {
  }

  lemma ParamText(p: Piece, rest: string)
    requires p.Param?
    ensures var t := p.Text() + rest; t[0] == p.separator && t[1..] == p.name + ("=" + (p.value + rest))
  {
  }

  lemma MatchesParam(p: Piece, rest: string)
    requires Matches(p, rest)
    ensures ParamAt(p.Text() + rest) == Some(p)
  {
    var after := p.value + rest;
    var tail := p.name + ("=" + after);
    ParamText(p, rest);
    RunExact(NameChar, p.name, "=" + after);
    Cut(p.name, "=" + after);
    Cut("=", after);
    RunExact(ValueChar, p.value, rest);
    Cut(p.value, rest);
    ParamFound(p.Text() + rest, tail, after, |p.name|);
  }

  /** The result starts with the same character, and ends where the text does. */
  lemma SameStart(decode: Decoder, lower: Lowercase, t: string)
    ensures RedactUrl(decode, lower, t) == "" <==> t == ""
    ensures t != "" ==> RedactUrl(decode, lower, t)[0] == t[0]
  {
  }

  lemma PlainChar(decode: Decoder, lower: Lowercase, c: char, b: string)
    requires !Separator(c)
    ensures RedactUrl(decode, lower, [c] + b) == [c] + RedactUrl(decode, lower, b)
  {
    assert ([c] + b)[1..] == b;
  }

  /** Text without separators passes unchanged. */
  lemma {:induction false} PlainRun(decode: Decoder, lower: Lowercase, a: string, b: string)
    requires forall i :: 0 <= i < |a| ==> !Separator(a[i])
    ensures RedactUrl(decode, lower, a + b) == a + RedactUrl(decode, lower, b)
  {
    if a == "" {
      Cut(a, b);
      Cut(a, RedactUrl(decode, lower, b));
    } else {
      PlainChar(decode, lower, a[0], a[1..] + b);
      PlainRun(decode, lower, a[1..], b);
      FirstThenRest(a, b);
      FirstThenRest(a, RedactUrl(decode, lower, b));
    }
  }

  lemma FirstThenRest(a: string, b: string)
    requires a != ""
    ensures a + b == [a[0]] + (a[1..] + b)
  {
  }

  /** A separator that starts no parameter still starts none once the text after it is rewritten. */
  lemma NoParamStays(decode: Decoder, lower: Lowercase, t: string)
    requires t != "" && ParamAt(t).None?
    ensures ParamAt([t[0]] + RedactUrl(decode, lower, t[1..])).None?
  {
    if Separator(t[0]) {
      var n := Run(NameChar, t[1..]);
      var name, rest := t[1..][..n], t[1..][n..];
      assert t[1..] == name + rest;
      PlainRun(decode, lower, name, rest);
      SameStart(decode, lower, rest);
      var after := RedactUrl(decode, lower, rest);
      RunExact(NameChar, name, after);
      var u := [t[0]] + RedactUrl(decode, lower, t[1..]);
      assert u[1..] == name + after && u[1..][n..] == after;
    }
  }

  lemma RewriteMatches(decode: Decoder, lower: Lowercase, p: Piece, rest: string)
    requires Matches(p, rest)
    ensures Matches(Rewrite(decode, lower, p), RedactUrl(decode, lower, rest))
  {
    SameStart(decode, lower, rest);
    MaskIsValue();
  }

  lemma MaskIsValue()
    ensures forall i :: 0 <= i < |MASK| ==> ValueChar(MASK[i])
  {
    assert MASK[0] == '«' && MASK[9] == '»';
    assert forall i :: 0 < i < 9 ==> 'a' <= MASK[i] <= 'z';
  }

  /** The pieces of a text, put together again, are the text. */
  lemma {:induction false} PiecesCover(t: string)
    ensures Joined(Pieces(t)) == t
    decreases |t|
  {
    if t != "" {
      match ParamAt(t)
      case Some(p) => PiecesCover(t[|p.Text()|..]);
      case None => PiecesCover(t[1..]);
    }
  }

  lemma RewriteAllCons(decode: Decoder, lower: Lowercase, p: Piece, ps: seq<Piece>)
    ensures RewriteAll(decode, lower, [p] + ps) == [Rewrite(decode, lower, p)] + RewriteAll(decode, lower, ps)
  {
  }

  /**
   * Only the values of sensitive parameters change: the result is the text's pieces with those
   * values masked, and scanning the result finds the same separators and names in the same places.
   */
  lemma {:induction false} SecondScanAgrees(decode: Decoder, lower: Lowercase, t: string)
    ensures RedactUrl(decode, lower, t) == Joined(RewriteAll(decode, lower, Pieces(t)))
    ensures Pieces(RedactUrl(decode, lower, t)) == RewriteAll(decode, lower, Pieces(t))
    decreases |t|
  {
    var r := RedactUrl(decode, lower, t);
    if t != "" {
      match ParamAt(t)
      case Some(p) =>
        var rest := t[|p.Text()|..];
        var q := Rewrite(decode, lower, p);
        SecondScanAgrees(decode, lower, rest);
        ParamMatches(t);
        RewriteMatches(decode, lower, p, rest);
        MatchesParam(q, RedactUrl(decode, lower, rest));
        RewriteAllCons(decode, lower, p, Pieces(rest));
        assert r[|q.Text()|..] == RedactUrl(decode, lower, rest);
      case None =>
        SecondScanAgrees(decode, lower, t[1..]);
        NoParamStays(decode, lower, t);
        RewriteAllCons(decode, lower, Plain(t[0]), Pieces(t[1..]));
        assert r[1..] == RedactUrl(decode, lower, t[1..]);
    }
  }

  /** Redacting again changes nothing. */
  lemma RedactUrlIdempotent(decode: Decoder, lower: Lowercase, url: string)
    ensures RedactUrl(decode, lower, RedactUrl(decode, lower, url)) == RedactUrl(decode, lower, url)
  {
    var once := RedactUrl(decode, lower, url);
    SecondScanAgrees(decode, lower, url);
    SecondScanAgrees(decode, lower, once);
    var ps := RewriteAll(decode, lower, Pieces(url));
    assert RewriteAll(decode, lower, ps) == ps;
  }

  /** No sensitive parameter of the result keeps a value but the mask. */
  lemma NoSensitiveValueLeft(decode: Decoder, lower: Lowercase, url: string)
    ensures forall p <- Pieces(RedactUrl(decode, lower, url)) ::
              p.Param? && Sensitive(decode, lower, p.name) ==> p.value == "" || p.value == MASK
  {
    SecondScanAgrees(decode, lower, url);
  }
}
