/** XML text escaping (`xml_escape` in crates/vdsm-virt/src/domain_xml.rs). */
module XmlEscape {
  import opened Prelude

  /** `str::replace` of one character by a text. */
  function Replace(s: string, c: char, t: string): string {
    if s == "" then "" else (if s[0] == c then t else [s[0]]) + Replace(s[1..], c, t)
  }

  /** The source's five passes over the whole string. */
  function Escape(s: string): string {
    Replace(Replace(Replace(Replace(Replace(s, '&', "&amp;"), '<', "&lt;"), '>', "&gt;"), '"', "&quot;"), '\'', "&apos;")
  }

  /** The predefined entities of section 4.6 of XML 1.0. */
  function EntityOf(c: char): string {
    match c
    case '&' => "&amp;"
    case '<' => "&lt;"
    case '>' => "&gt;"
    case '"' => "&quot;"
    case '\'' => "&apos;"
    case _ => [c]
  }

  /** One pass, character by character. */
  function OnePass(s: string): string {
    if s == "" then "" else EntityOf(s[0]) + OnePass(s[1..])
  }

  lemma {:induction false} ReplaceConcat(a: string, b: string, c: char, t: string)
    ensures Replace(a + b, c, t) == Replace(a, c, t) + Replace(b, c, t)
  {
    if a == "" {
      assert a + b == b;
    } else {
      assert (a + b)[1..] == a[1..] + b;
      ReplaceConcat(a[1..], b, c, t);
    }
  }

  lemma {:induction false} ReplaceAbsent(s: string, c: char, t: string)
    requires c !in s
    ensures Replace(s, c, t) == s
  {
    if s != "" {
      ReplaceAbsent(s[1..], c, t);
    }
  }

  lemma ReplaceOne(c: char, d: char, t: string)
    ensures Replace([d], c, t) == if d == c then t else [d]
  {
    assert [d][1..] == "";
    assert Replace([d], c, t) == (if d == c then t else [d]) + Replace("", c, t);
  }

  lemma EscapeConcat(a: string, b: string)
    ensures Escape(a + b) == Escape(a) + Escape(b)
  {
    var a1, b1 := Replace(a, '&', "&amp;"), Replace(b, '&', "&amp;");
    var a2, b2 := Replace(a1, '<', "&lt;"), Replace(b1, '<', "&lt;");
    var a3, b3 := Replace(a2, '>', "&gt;"), Replace(b2, '>', "&gt;");
    var a4, b4 := Replace(a3, '"', "&quot;"), Replace(b3, '"', "&quot;");
    ReplaceConcat(a, b, '&', "&amp;");
    ReplaceConcat(a1, b1, '<', "&lt;");
    ReplaceConcat(a2, b2, '>', "&gt;");
    ReplaceConcat(a3, b3, '"', "&quot;");
    ReplaceConcat(a4, b4, '\'', "&apos;");
  }

  /** The last `n` of the five passes. */
  function LastPasses(s: string, n: nat): string
    decreases n
  {
    if n == 0 then s
    else if n == 1 then Replace(s, '\'', "&apos;")
    else if n == 2 then LastPasses(Replace(s, '"', "&quot;"), 1)
    else if n == 3 then LastPasses(Replace(s, '>', "&gt;"), 2)
    else LastPasses(Replace(s, '<', "&lt;"), 3)
  }

  predicate Untouched(e: string) {
    '<' !in e && '>' !in e && '"' !in e && '\'' !in e
  }

  /** Later passes leave the entities of earlier ones alone. */
  lemma PassesKeep(e: string, n: nat)
    requires Untouched(e)
    ensures LastPasses(e, n) == e
  {
    ReplaceAbsent(e, '<', "&lt;");
    ReplaceAbsent(e, '>', "&gt;");
    ReplaceAbsent(e, '"', "&quot;");
    ReplaceAbsent(e, '\'', "&apos;");
  }

  lemma EscapePasses(s: string)
    ensures Escape(s) == LastPasses(Replace(s, '&', "&amp;"), 4)
  {
    var a := Replace(s, '&', "&amp;");
    var b := Replace(a, '<', "&lt;");
    var c := Replace(b, '>', "&gt;");
    var d := Replace(c, '"', "&quot;");
    assert LastPasses(a, 4) == LastPasses(b, 3) == LastPasses(c, 2) == LastPasses(d, 1);
  }

  lemma EntityUntouched(c: char)
    ensures Untouched(EntityOf(c))
  {
  }

  lemma PassesOne(c: char, n: nat)
    requires c in {'<', '>', '"', '\''} ==> (c == '<' && n >= 4) || (c == '>' && n >= 3) || (c == '"' && n >= 2)
                                            || (c == '\'' && n >= 1)
    ensures LastPasses([c], n) == if c == '&' then [c] else EntityOf(c)
    decreases n
  {
    EntityUntouched(c);
    if n >= 4 {
      ReplaceOne('<', c, "&lt;");
      if c == '<' { PassesKeep(EntityOf(c), 3); } else { PassesOne(c, 3); }
    } else if n == 3 {
      ReplaceOne('>', c, "&gt;");
      if c == '>' { PassesKeep(EntityOf(c), 2); } else { PassesOne(c, 2); }
    } else if n == 2 {
      ReplaceOne('"', c, "&quot;");
      if c == '"' { PassesKeep(EntityOf(c), 1); } else { PassesOne(c, 1); }
    } else if n == 1 {
      ReplaceOne('\'', c, "&apos;");
    }
  }

  lemma EscapeOne(c: char)
    ensures Escape([c]) == EntityOf(c)
  {
    EscapePasses([c]);
    ReplaceOne('&', c, "&amp;");
    if c == '&' {
      EntityUntouched(c);
      PassesKeep(EntityOf(c), 4);
    } else {
      PassesOne(c, 4);
    }
  }

  /** The five whole-string passes are one pass. */
  lemma {:induction false} FivePassesAreOne(s: string)
    ensures Escape(s) == OnePass(s)
  {
    if s != "" {
      assert s == [s[0]] + s[1..];
      EscapeConcat([s[0]], s[1..]);
      EscapeOne(s[0]);
      FivePassesAreOne(s[1..]);
    }
  }

  // ------------------------------------------------------------------- decoding

  datatype Piece = Piece(c: char, rest: string)

  function After(s: string, entity: string, c: char): Option<Piece> {
    if entity <= s then Some(Piece(c, s[|entity|..])) else None
  }

  /** The character that starts `s`, an entity being one character. `None` when an ampersand starts
      none of the five, or when the character may not stand in text or attributes unescaped. */
  function NextChar(s: string): (r: Option<Piece>)
    requires s != ""
    ensures r.Some? ==> |r.value.rest| < |s|
  {
    if s[0] == '&' then
      if "&amp;" <= s then After(s, "&amp;", '&')
      else if "&lt;" <= s then After(s, "&lt;", '<')
      else if "&gt;" <= s then After(s, "&gt;", '>')
      else if "&quot;" <= s then After(s, "&quot;", '"')
      else After(s, "&apos;", '\'')
    else if s[0] in {'<', '>', '"', '\''} then None
    else Some(Piece(s[0], s[1..]))
  }

  function Decode(s: string): Option<string>
    decreases |s|
  {
    if s == "" then Some("")
    else
      match NextChar(s)
      case None => None
      case Some(Piece(c, rest)) =>
        match Decode(rest)
        case None => None
        case Some(t) => Some([c] + t)
  }

  lemma NextEscaped(c: char, t: string)
    ensures NextChar(EntityOf(c) + t) == Some(Piece(c, t))
  {
    var e := EntityOf(c);
    var s := e + t;
    assert s[|e|..] == t && e <= s;
    assert s[0] == e[0] && (|e| > 1 ==> s[1] == e[1] && s[2] == e[2]);
  }

  /** Every escaped text decodes, to the original: in particular no raw `<`, `>`, `"` or `'` is left
      in it and each of its ampersands starts a predefined entity. */
  lemma {:induction false} EscapeDecodes(s: string)
    ensures Decode(Escape(s)) == Some(s)
  {
    FivePassesAreOne(s);
    if s != "" {
      FivePassesAreOne(s[1..]);
      EscapeDecodes(s[1..]);
      NextEscaped(s[0], OnePass(s[1..]));
      assert [s[0]] + s[1..] == s;
    }
  }

  /** One of the five entities starts `t`. */
  predicate StartsEntity(t: string) {
    "&amp;" <= t || "&lt;" <= t || "&gt;" <= t || "&quot;" <= t || "&apos;" <= t
  }

  predicate Safe(t: string) {
    Untouched(t) && forall i :: 0 <= i < |t| && t[i] == '&' ==> StartsEntity(t[i..])
  }

  /** The same said outright: no raw `<`, `>`, `"` or `'` is left, and every ampersand starts one of the
      five entities. */
  lemma {:induction false} EscapeIsSafe(s: string)
    ensures Safe(Escape(s))
  {
    FivePassesAreOne(s);
    OnePassSafe(s);
  }

  lemma {:induction false} OnePassSafe(s: string)
    ensures Safe(OnePass(s))
  {
    if s != "" {
      OnePassSafe(s[1..]);
      SafePrepend(s[0], OnePass(s[1..]));
    }
  }

  lemma SafePrepend(c: char, t: string)
    requires Safe(t)
    ensures Safe(EntityOf(c) + t)
  {
    var e := EntityOf(c);
    var r := e + t;
    EntityUntouched(c);
    forall i | 0 <= i < |r| && r[i] == '&' ensures StartsEntity(r[i..]) {
      if i < |e| {
        OneAmpersand(c, i);
        assert r[0..] == r && e <= r;
      } else {
        assert r[i..] == t[i - |e|..];
      }
    }
  }

  /** An entity has its only ampersand in front. */
  lemma OneAmpersand(c: char, i: nat)
    requires i < |EntityOf(c)| && EntityOf(c)[i] == '&'
    ensures i == 0 && c in {'&', '<', '>', '"', '\''}
  {
  }
}
