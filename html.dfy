/** `escapeHtml` (app.js:1384-1388): replace each of the five characters that are
    special in HTML by its character reference, leave every other character. */
module Html {

  predicate Special(c: char) {
    c == '&' || c == '<' || c == '>' || c == '"' || c == '\''
  }

  /** A character that cannot open a tag or close an attribute value. */
  predicate Inert(c: char) {
    c != '<' && c != '>' && c != '"' && c != '\''
  }

  /** The replacement of one character. */
  function EscapeChar(c: char): (e: string)
    ensures !Special(c) ==> e == [c]
    ensures Special(c) ==> |e| >= 4 && e[0] == '&' && e[|e| - 1] == ';'
    ensures forall k :: 0 <= k < |e| ==> Inert(e[k])
  {
    match c
    case '&' => "&amp;"
    case '<' => "&lt;"
    case '>' => "&gt;"
    case '"' => "&quot;"
    case '\'' => "&#39;"
    case _ => [c]
  }

  function EscapeHtml(s: string): (r: string)
    ensures |r| >= |s|
    ensures forall k :: 0 <= k < |r| ==> Inert(r[k])
  {
    if s == [] then ""
    else
      var head := EscapeChar(s[0]);
      var rest := EscapeHtml(s[1..]);
      assert forall k :: 0 <= k < |head| ==> (head + rest)[k] == head[k];
      assert forall k :: |head| <= k < |head| + |rest| ==> (head + rest)[k] == rest[k - |head|];
      head + rest
  }

  /** Decoding of the five references, the reference definition the escape is
      checked against: a reader of the produced markup sees the original text. */
  function Unescape(s: string): string {
    if s == [] then ""
    else if |s| >= 5 && s[..5] == "&amp;" then "&" + Unescape(s[5..])
    else if |s| >= 4 && s[..4] == "&lt;" then "<" + Unescape(s[4..])
    else if |s| >= 4 && s[..4] == "&gt;" then ">" + Unescape(s[4..])
    else if |s| >= 6 && s[..6] == "&quot;" then "\"" + Unescape(s[6..])
    else if |s| >= 5 && s[..5] == "&#39;" then "'" + Unescape(s[5..])
    else [s[0]] + Unescape(s[1..])
  }

  /** Escaping loses nothing. */
  lemma {:induction false} EscapeRoundTrip(s: string)
    ensures Unescape(EscapeHtml(s)) == s
  {
    if s != [] {
      EscapeRoundTrip(s[1..]);
      UnescapeStep(s[0], EscapeHtml(s[1..]));
    }
  }

  lemma UnescapeStep(c: char, rest: string)
    ensures Unescape(EscapeChar(c) + rest) == [c] + Unescape(rest)
  {
    var e := EscapeChar(c) + rest;
    var n := |EscapeChar(c)|;
    assert e[..n] == EscapeChar(c) && e[n..] == rest;
    if !Special(c) {
      assert e[0] == c;
      assert |e| >= 4 ==> e[..4][0] == c;
      assert |e| >= 5 ==> e[..5][0] == c;
      assert |e| >= 6 ==> e[..6][0] == c;
    } else if c == '<' || c == '>' {
      assert |e| >= 5 ==> e[..5][1] == EscapeChar(c)[1];
    } else if c == '"' {
      assert e[..4][1] == 'q' && e[..5][1] == 'q';
    } else if c == '\'' {
      assert e[..4][1] == '#' && e[..5][1] == '#' && (|e| >= 6 ==> e[..6][1] == '#');
    }
  }

  /** Text without special characters is left as it is. */
  lemma {:induction false} EscapePlain(s: string)
    requires forall k :: 0 <= k < |s| ==> !Special(s[k])
    ensures EscapeHtml(s) == s
  {
    if s != [] {
      EscapePlain(s[1..]);
    }
  }
}
