/** The textual pass that drops YAML anchors and turns aliases into plain names
    (`strip_anchors_and_aliases` in crates/vdsm-schema/build.rs), on the bytes of the text. */
module AnchorPass {
  import opened Bytes

  const AMP: Byte := 38
  const STAR: Byte := 42

  predicate IsMarker(b: Byte) { b == AMP || b == STAR }

  predicate IsAlpha(b: Byte) { 65 <= b <= 90 || 97 <= b <= 122 }

  /** Names start with a letter or underscore and go on with those and digits. */
  predicate IsStart(b: Byte) { IsAlpha(b) || b == 95 }

  predicate IsWord(b: Byte) { IsStart(b) || IsDigit(b) }

  /** How many bytes at the front of `s` belong to a name. */
  function WordLen(s: Bytes): (n: nat)
    ensures n <= |s| && (forall i :: 0 <= i < n ==> IsWord(s[i])) && (n < |s| ==> !IsWord(s[n]))
  {
    if s != [] && IsWord(s[0]) then 1 + WordLen(s[1..]) else 0
  }

  predicate StartsName(s: Bytes) { s != [] && IsStart(s[0]) }

  /** `s` starts with an anchor or an alias. */
  predicate AtToken(s: Bytes) {
    s != [] && IsMarker(s[0]) && StartsName(s[1..])
  }

  function Strip(s: Bytes): Bytes
    decreases |s|
  {
    if s == [] then []
    else if AtToken(s) then
      var n := WordLen(s[1..]);
      (if s[0] == STAR then s[1..1 + n] else []) + Strip(s[1 + n..])
    else [s[0]] + Strip(s[1..])
  }

  /** The source's inner loop: where the name that starts at `start` ends. */
  method NameEnd(input: Bytes, start: nat) returns (j: nat)
    requires start <= |input|
    ensures j == start + WordLen(input[start..])
  {
    j := start;
    while j < |input| && IsWord(input[j])
      invariant start <= j <= |input|
      invariant forall k :: start <= k < j ==> IsWord(input[k])
    {
      j := j + 1;
    }
    WordLenIs(input[start..], j - start);
  }

  /** The source's outer loop. */
  method StripLoop(input: Bytes) returns (out: Bytes)
    ensures out == Strip(input)
  {
    out := [];
    var i := 0;
    while i < |input|
      invariant 0 <= i <= |input|
      invariant out + Strip(input[i..]) == Strip(input)
    {
      var b := input[i];
      if IsMarker(b) && i + 1 < |input| && IsStart(input[i + 1]) {
        var j := NameEnd(input, i + 1);
        StripAtToken(input, i, j);
        var kept := if b == STAR then input[i + 1..j] else [];
        Regroup(out, kept, Strip(input[j..]));
        out := out + kept;
        i := j;
      } else {
        StripAtRaw(input, i);
        Regroup(out, [b], Strip(input[i + 1..]));
        out := out + [b];
        i := i + 1;
      }
    }
  }

  lemma StripAtToken(input: Bytes, i: nat, j: nat)
    requires i + 1 < |input| && IsMarker(input[i]) && IsStart(input[i + 1])
    requires j == i + 1 + WordLen(input[i + 1..])
    ensures Strip(input[i..]) == (if input[i] == STAR then input[i + 1..j] else []) + Strip(input[j..])
  {
    var s := input[i..];
    assert s[1..] == input[i + 1..];
    assert s[1..1 + WordLen(s[1..])] == input[i + 1..j] && s[1 + WordLen(s[1..])..] == input[j..];
  }

  lemma StripAtRaw(input: Bytes, i: nat)
    requires i < |input| && !(IsMarker(input[i]) && i + 1 < |input| && IsStart(input[i + 1]))
    ensures Strip(input[i..]) == [input[i]] + Strip(input[i + 1..])
  {
    var s := input[i..];
    assert s[1..] == input[i + 1..];
  }

  lemma NameEnds(s: Bytes, n: nat)
    requires s != [] && 1 + n <= |s|
    requires (forall i :: 1 <= i < 1 + n ==> IsWord(s[i])) && (1 + n < |s| ==> !IsWord(s[1 + n]))
    ensures WordLen(s[1..]) == n
  {
    WordLenIs(s[1..], n);
  }

  lemma {:induction false} WordLenIs(s: Bytes, n: nat)
    requires n <= |s| && (forall i :: 0 <= i < n ==> IsWord(s[i])) && (n < |s| ==> !IsWord(s[n]))
    ensures WordLen(s) == n
  {
    if n > 0 {
      WordLenIs(s[1..], n - 1);
    }
  }

  // --------------------------------------------------------- token-wise meaning

  datatype Token = Anchor(name: Bytes) | Alias(name: Bytes) | Raw(b: Byte)

  function Text(t: Token): Bytes {
    match t
    case Anchor(name) => [AMP] + name
    case Alias(name) => [STAR] + name
    case Raw(b) => [b]
  }

  function TextOf(ts: seq<Token>): Bytes {
    if ts == [] then [] else Text(ts[0]) + TextOf(ts[1..])
  }

  /** Drop anchors, keep alias names, copy the rest. */
  function Rewritten(ts: seq<Token>): Bytes {
    if ts == [] then []
    else
      (match ts[0]
       case Anchor(_) => []
       case Alias(name) => name
       case Raw(b) => [b]) + Rewritten(ts[1..])
  }

  predicate IsName(name: Bytes) {
    name != [] && IsStart(name[0]) && forall i :: 0 <= i < |name| ==> IsWord(name[i])
  }

  /** Names are proper and as long as they can be, and no marker left raw starts a token. */
  predicate Proper(ts: seq<Token>) {
    || ts == []
    || (&& Proper(ts[1..])
        && var rest := TextOf(ts[1..]);
           match ts[0]
           case Raw(b) => IsMarker(b) ==> !StartsName(rest)
           case _ => IsName(ts[0].name) && !(rest != [] && IsWord(rest[0])))
  }

  /** However a text is cut into proper tokens, the pass rewrites it token by token. */
  lemma {:induction false} StripRewrites(ts: seq<Token>)
    requires Proper(ts)
    ensures Strip(TextOf(ts)) == Rewritten(ts)
    decreases |ts|
  {
    if ts != [] {
      var s, rest := TextOf(ts), TextOf(ts[1..]);
      StripRewrites(ts[1..]);
      match ts[0]
      case Raw(b) => assert s[1..] == rest;
      case Anchor(name) => TokenStep(s, name, rest);
      case Alias(name) => TokenStep(s, name, rest);
    }
  }

  lemma TokenStep(s: Bytes, name: Bytes, rest: Bytes)
    requires s != [] && IsMarker(s[0]) && s == [s[0]] + name + rest
    requires IsName(name) && !(rest != [] && IsWord(rest[0]))
    ensures Strip(s) == (if s[0] == STAR then name else []) + Strip(rest)
  {
    assert s[1..] == name + rest && s[1..1 + |name|] == name && s[1 + |name|..] == rest;
    assert s[1] == name[0];
    NameEnds(s, |name|);
  }

  /** And every text can be cut so. */
  lemma {:induction false} CutsUp(s: Bytes) returns (ts: seq<Token>)
    ensures Proper(ts) && TextOf(ts) == s
    decreases |s|
  {
    if s == [] {
      ts := [];
    } else if AtToken(s) {
      var n := WordLen(s[1..]);
      var name := s[1..1 + n];
      var more := CutsUp(s[1 + n..]);
      ts := [if s[0] == STAR then Alias(name) else Anchor(name)] + more;
      NameCut(s, n);
      AddToken(ts[0], more);
    } else {
      var more := CutsUp(s[1..]);
      ts := [Raw(s[0])] + more;
      AddToken(ts[0], more);
      assert s == [s[0]] + s[1..];
    }
  }

  lemma AddToken(t: Token, more: seq<Token>)
    ensures TextOf([t] + more) == Text(t) + TextOf(more)
    ensures ([t] + more)[1..] == more
  {
    assert ([t] + more)[1..] == more;
  }

  lemma NameCut(s: Bytes, n: nat)
    requires AtToken(s) && n == WordLen(s[1..])
    ensures IsName(s[1..1 + n]) && !(s[1 + n..] != [] && IsWord(s[1 + n..][0]))
    ensures s == [s[0]] + s[1..1 + n] + s[1 + n..]
  {
    var u := s[1..];
    assert s[1..1 + n] == u[..n] && s[1 + n..] == u[n..];
  }

  // --------------------------------------------- which inputs leave a token behind

  ghost predicate HasToken(s: Bytes) {
    exists i :: 0 <= i < |s| && AtToken(s[i..])
  }

  /** Any number of anchors, then an alias. */
  predicate AnchorsThenAlias(t: Bytes)
    decreases |t|
  {
    AtToken(t) && (t[0] == STAR || AnchorsThenAlias(t[1 + WordLen(t[1..])..]))
  }

  /** A marker directly followed by anchors and an alias: once they are rewritten, the marker stands
      before the alias name. */
  ghost predicate Dangling(s: Bytes) {
    exists i :: 0 <= i < |s| && DanglesAt(s, i)
  }

  predicate DanglesAt(s: Bytes, i: nat)
    requires i < |s|
  {
    IsMarker(s[i]) && AnchorsThenAlias(s[i + 1..])
  }

  lemma TokenAfter(b: Byte, u: Bytes)
    ensures HasToken([b] + u) <==> (IsMarker(b) && StartsName(u)) || HasToken(u)
  {
    var s := [b] + u;
    assert s[0..][1..] == u;
    if HasToken(s) {
      var i :| 0 <= i < |s| && AtToken(s[i..]);
      if i > 0 {
        assert s[i..] == u[i - 1..];
      }
    }
    if HasToken(u) {
      var i :| 0 <= i < |u| && AtToken(u[i..]);
      assert s[i + 1..] == u[i..];
    }
  }

  lemma {:induction false} NameThenTokens(name: Bytes, u: Bytes)
    requires forall i :: 0 <= i < |name| ==> IsWord(name[i])
    ensures HasToken(name + u) <==> HasToken(u)
  {
    if name == [] {
      assert name + u == u;
    } else {
      assert name + u == [name[0]] + (name[1..] + u);
      TokenAfter(name[0], name[1..] + u);
      NameThenTokens(name[1..], u);
    }
  }

  lemma DanglingStep(s: Bytes)
    requires s != []
    ensures Dangling(s) <==> DanglesAt(s, 0) || Dangling(s[1..])
  {
    var u := s[1..];
    if Dangling(s) {
      var i :| 0 <= i < |s| && DanglesAt(s, i);
      if i > 0 {
        assert u[i - 1 + 1..] == s[i + 1..];
        assert DanglesAt(u, i - 1);
      }
    }
    if Dangling(u) {
      var i :| 0 <= i < |u| && DanglesAt(u, i);
      assert s[i + 1 + 1..] == u[i + 1..];
      assert DanglesAt(s, i + 1);
    }
  }

  lemma {:induction false} DanglingSkipsName(s: Bytes, n: nat)
    requires n <= |s| && forall i :: 0 <= i < n ==> IsWord(s[i])
    ensures Dangling(s) <==> Dangling(s[n..])
    decreases n
  {
    if n == 0 {
      assert s[n..] == s;
    } else {
      var u := s[1..];
      DanglingStep(s);
      assert forall i :: 0 <= i < n - 1 ==> u[i] == s[i + 1];
      DanglingSkipsName(u, n - 1);
      assert u[n - 1..] == s[n..];
    }
  }

  /** After a raw marker the output goes on with a name exactly when anchors and an alias follow. */
  lemma {:induction false} StripStartsName(t: Bytes)
    requires !StartsName(t)
    ensures StartsName(Strip(t)) <==> AnchorsThenAlias(t)
    decreases |t|
  {
    if AtToken(t) {
      var n := WordLen(t[1..]);
      if t[0] == STAR {
        assert Strip(t)[0] == t[1];
      } else {
        assert t[1..][n..] == t[1 + n..];
        StripStartsName(t[1 + n..]);
        assert Strip(t) == Strip(t[1 + n..]);
      }
    }
  }

  /** The output still holds an anchor or alias if and only if some marker of the input is directly
      followed by any number of anchors and then an alias. */
  lemma {:induction false} TokensLeft(s: Bytes)
    ensures HasToken(Strip(s)) <==> Dangling(s)
    decreases |s|
  {
    if s != [] {
      DanglingStep(s);
      if AtToken(s) {
        var n := WordLen(s[1..]);
        var name, rest := s[1..1 + n], s[1 + n..];
        assert s[1..][n..] == rest;
        TokensLeft(rest);
        DanglingSkipsName(s[1..], n);
        NameThenTokens(name, Strip(rest));
        assert [] + Strip(rest) == Strip(rest);
      } else {
        TokensLeft(s[1..]);
        TokenAfter(s[0], Strip(s[1..]));
        if IsMarker(s[0]) {
          StripStartsName(s[1..]);
        }
      }
    }
  }

  /** The shortest of these: a marker directly before an alias is left standing before the alias name,
      where a second pass takes it for an anchor or alias. */
  lemma MarkerBeforeAlias(m: Byte, name: Bytes)
    requires IsMarker(m) && IsName(name)
    ensures Strip([m, STAR] + name) == [m] + name && HasToken([m] + name)
    ensures Strip([m] + name) == if m == STAR then name else []
  {
    var alias, s := [STAR] + name + [], [m, STAR] + name;
    assert s[1..] == alias && [m] + name + [] == [m] + name;
    TokenStep(alias, name, []);
    TokenStep([m] + name, name, []);
    assert name + [] == name && Strip([]) == [];
    assert ([m] + name)[0..] == [m] + name && ([m] + name)[1..] == name;
  }

  lemma {:induction false} StripLength(s: Bytes)
    ensures |Strip(s)| <= |s|
    ensures Strip(s) == s <==> !HasToken(s)
    decreases |s|
  {
    if s != [] {
      assert s == [s[0]] + s[1..];
      TokenAfter(s[0], s[1..]);
      if AtToken(s) {
        StripLength(s[1 + WordLen(s[1..])..]);
        assert |Strip(s)| < |s|;
      } else {
        StripLength(s[1..]);
        assert Strip(s) == s <==> Strip(s[1..]) == s[1..] by {
          assert Strip(s)[1..] == Strip(s[1..]);
        }
      }
    }
  }

  /** The pass is idempotent on exactly the same inputs. */
  lemma StripIdempotent(s: Bytes)
    ensures Strip(Strip(s)) == Strip(s) <==> !Dangling(s)
  {
    TokensLeft(s);
    StripLength(Strip(s));
  }

  /** In particular wherever no marker directly follows another. */
  lemma ApartMarkersSuffice(s: Bytes)
    requires forall i :: 0 <= i < |s| - 1 ==> !(IsMarker(s[i]) && IsMarker(s[i + 1]))
    ensures !HasToken(Strip(s)) && Strip(Strip(s)) == Strip(s)
  {
    TokensLeft(s);
    StripIdempotent(s);
  }

  /** ASCII in, ASCII out: there a second pass reads the very bytes the first one wrote. */
  lemma {:induction false} StripKeepsAscii(s: Bytes)
    requires forall i :: 0 <= i < |s| ==> s[i] < 0x80
    ensures forall i :: 0 <= i < |Strip(s)| ==> Strip(s)[i] < 0x80
    decreases |s|
  {
    if s != [] {
      if AtToken(s) {
        StripKeepsAscii(s[1 + WordLen(s[1..])..]);
      } else {
        StripKeepsAscii(s[1..]);
      }
    }
  }

  // ------------------------------------------------------------ said of characters

  predicate NameStart(c: char) { 'a' <= c <= 'z' || 'A' <= c <= 'Z' || c == '_' }

  predicate NameChar(c: char) { NameStart(c) || '0' <= c <= '9' }

  predicate IsAscii(s: string) {
    forall i :: 0 <= i < |s| ==> s[i] as int < 128
  }

  /** A text between two tokens: no marker in it, and no letter, digit or underscore in front. */
  predicate Between(s: string) {
    IsAscii(s) && '&' !in s && '*' !in s && (s != "" ==> !NameChar(s[0]))
  }

  predicate IsNameText(s: string) {
    s != "" && NameStart(s[0]) && forall i :: 0 <= i < |s| ==> NameChar(s[i])
  }

  lemma NameBytes(s: string)
    requires IsNameText(s)
    ensures IsAscii(s) && IsName(Ascii(s))
  {
  }

  lemma {:induction false} PlainCopied(a: Bytes, b: Bytes)
    requires AMP !in a && STAR !in a
    ensures Strip(a + b) == a + Strip(b)
  {
    if a == [] {
      assert a + b == b;
    } else {
      assert (a + b)[1..] == a[1..] + b;
      PlainCopied(a[1..], b);
    }
  }

  lemma TokenInBytes(b: Bytes, m: Byte, n: Bytes, a: Bytes)
    requires AMP !in b && STAR !in b && IsMarker(m) && IsName(n)
    requires AMP !in a && STAR !in a && !(a != [] && IsWord(a[0]))
    ensures Strip(b + ([m] + n + a)) == b + ((if m == STAR then n else []) + a)
  {
    PlainCopied(b, [m] + n + a);
    TokenStep([m] + n + a, n, a);
    PlainCopied(a, []);
    assert a + [] == a && Strip([]) == [];
  }

  lemma NoMarkerBytes(s: string)
    requires IsAscii(s) && '&' !in s && '*' !in s
    ensures AMP !in Ascii(s) && STAR !in Ascii(s)
  {
  }

  /** In YAML: an anchor is dropped, an alias becomes its name, and the text around them stays. */
  lemma TokensInText(before: string, name: string, after: string)
    requires IsAscii(before) && '&' !in before && '*' !in before && IsNameText(name) && Between(after)
    ensures IsAscii(name)
    ensures Strip(Ascii(before) + (['&' as int] + Ascii(name) + Ascii(after))) == Ascii(before) + ([] + Ascii(after))
    ensures Strip(Ascii(before) + (['*' as int] + Ascii(name) + Ascii(after)))
            == Ascii(before) + (Ascii(name) + Ascii(after))
  {
    NameBytes(name);
    NoMarkerBytes(before);
    NoMarkerBytes(after);
    TokenInBytes(Ascii(before), AMP, Ascii(name), Ascii(after));
    TokenInBytes(Ascii(before), STAR, Ascii(name), Ascii(after));
  }
}
