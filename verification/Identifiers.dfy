/** Identifier normalisation in the schema compiler (`snake` and `pascal` in
    crates/vdsm-schema/build.rs). */
module Identifiers {

  predicate IsUpper(c: char) { 'A' <= c <= 'Z' }
  predicate IsLower(c: char) { 'a' <= c <= 'z' }
  predicate IsDigit(c: char) { '0' <= c <= '9' }
  predicate IsAlnum(c: char) { IsUpper(c) || IsLower(c) || IsDigit(c) }

  function ToLower(c: char): char
    requires IsUpper(c)
  {
    (c as int + 32) as char
  }

  function ToUpper(c: char): char
    requires IsAlnum(c)
  {
    if IsLower(c) then (c as int - 32) as char else c
  }

  predicate EndsWith(s: string, c: char) { s != "" && s[|s| - 1] == c }

  // ---------------------------------------------------------------- snake case

  /** The loop's two variables. */
  datatype Snaking = Snaking(out: string, prevLowerOrDigit: bool)

  function Break(out: string): string {
    if out != "" && !EndsWith(out, '_') then out + "_" else out
  }

  function SnakeStep(st: Snaking, c: char): Snaking {
    if IsUpper(c) then Snaking((if st.prevLowerOrDigit then Break(st.out) else st.out) + [ToLower(c)], false)
    else if IsAlnum(c) then Snaking(st.out + [c], IsLower(c) || IsDigit(c))
    else Snaking(Break(st.out), false)
  }

  function SnakeFold(st: Snaking, s: string): Snaking
    decreases |s|
  {
    if s == "" then st else SnakeFold(SnakeStep(st, s[0]), s[1..])
  }

  function TrimRight(s: string): string {
    if EndsWith(s, '_') then TrimRight(s[..|s| - 1]) else s
  }

  function TrimLeft(s: string): string {
    if s != "" && s[0] == '_' then TrimLeft(s[1..]) else s
  }

  function SnakeFinish(out: string): string {
    var t := TrimLeft(TrimRight(out));
    if t == "" then "field" else if IsDigit(t[0]) then "f_" + t else t
  }

  function Snake(s: string): string {
    SnakeFinish(SnakeFold(Snaking("", false), s).out)
  }

  /** The source's loops. */
  method SnakeLoop(s: string) returns (r: string)
    ensures r == Snake(s)
  {
    var out := "";
    var prev := false;
    for i := 0 to |s|
      invariant SnakeFold(Snaking(out, prev), s[i..]) == SnakeFold(Snaking("", false), s)
    {
      var c := s[i];
      assert s[i..][1..] == s[i + 1..];
      if IsUpper(c) {
        if prev && out != "" && !EndsWith(out, '_') {
          out := out + "_";
        }
        out := out + [ToLower(c)];
        prev := false;
      } else if IsAlnum(c) {
        out := out + [c];
        prev := IsLower(c) || IsDigit(c);
      } else {
        if out != "" && !EndsWith(out, '_') {
          out := out + "_";
        }
        prev := false;
      }
    }
    ghost var folded := out;
    while EndsWith(out, '_')
      invariant TrimRight(out) == TrimRight(folded)
      decreases |out|
    {
      out := out[..|out| - 1];
    }
    while out != "" && out[0] == '_'
      invariant TrimLeft(out) == TrimLeft(TrimRight(folded))
      decreases |out|
    {
      out := out[1..];
    }
    return if out == "" then "field" else if IsDigit(out[0]) then "f_" + out else out;
  }

  predicate SnakeChar(c: char) { IsLower(c) || IsDigit(c) || c == '_' }

  /** Lower-case words and no underscore at the front or next to another one. */
  predicate Spaced(s: string) {
    && (forall i :: 0 <= i < |s| ==> SnakeChar(s[i]))
    && (s != "" ==> s[0] != '_')
    && (forall i :: 0 < i < |s| ==> !(s[i - 1] == '_' && s[i] == '_'))
  }

  /** A lower-case identifier with no leading, trailing or double underscore. */
  predicate SnakeName(s: string) {
    Spaced(s) && s != "" && IsLower(s[0]) && !EndsWith(s, '_')
  }

  lemma SpacedAppend(s: string, c: char)
    requires Spaced(s) && SnakeChar(c) && (c == '_' ==> s != "" && !EndsWith(s, '_'))
    ensures Spaced(s + [c])
  {
  }

  lemma StepSpaced(st: Snaking, c: char)
    requires Spaced(st.out)
    ensures Spaced(SnakeStep(st, c).out)
  {
    if st.out != "" && !EndsWith(st.out, '_') {
      SpacedAppend(st.out, '_');
    }
    if IsUpper(c) {
      SpacedAppend(if st.prevLowerOrDigit then Break(st.out) else st.out, ToLower(c));
    } else if IsAlnum(c) {
      SpacedAppend(st.out, c);
    }
  }

  lemma {:induction false} FoldSpaced(st: Snaking, s: string)
    requires Spaced(st.out)
    ensures Spaced(SnakeFold(st, s).out)
    decreases |s|
  {
    if s != "" {
      StepSpaced(st, s[0]);
      FoldSpaced(SnakeStep(st, s[0]), s[1..]);
    }
  }

  /** Of a spaced text only one final underscore is trimmed. */
  lemma TrimRightSpaced(out: string)
    requires Spaced(out)
    ensures Spaced(TrimRight(out)) && !EndsWith(TrimRight(out), '_')
  {
    if EndsWith(out, '_') {
      var t := out[..|out| - 1];
      assert |out| > 1 && out[|out| - 2] != '_';
      assert !EndsWith(t, '_') && TrimRight(t) == t;
      SpacedFront(out);
    }
  }

  lemma SpacedFront(s: string)
    requires Spaced(s) && |s| > 1
    ensures Spaced(s[..|s| - 1])
  {
  }

  lemma TrimLeftSpaced(t: string)
    requires Spaced(t)
    ensures TrimLeft(t) == t
  {
  }

  lemma FinishNames(out: string)
    requires Spaced(out)
    ensures SnakeName(SnakeFinish(out))
  {
    var t := TrimRight(out);
    TrimRightSpaced(out);
    TrimLeftSpaced(t);
    if t != "" && IsDigit(t[0]) {
      PrefixNames(t);
    }
  }

  lemma PrefixNames(t: string)
    requires Spaced(t) && t != "" && IsDigit(t[0]) && !EndsWith(t, '_')
    ensures SnakeName("f_" + t)
  {
    var r := "f_" + t;
    assert forall i :: 2 <= i < |r| ==> r[i] == t[i - 2];
  }

  /** Every schema name becomes a proper snake-case name. */
  lemma SnakeNames(s: string)
    ensures SnakeName(Snake(s))
  {
    FoldSpaced(Snaking("", false), s);
    FinishNames(SnakeFold(Snaking("", false), s).out);
  }

  lemma {:induction false} FoldCopies(p: string, prev: bool, q: string)
    requires Spaced(p + q)
    ensures SnakeFold(Snaking(p, prev), q).out == p + q
    decreases |q|
  {
    if q == "" {
      assert p + q == p;
    } else {
      var c := q[0];
      assert (p + q)[|p|] == c && (p != "" ==> (p + q)[|p| - 1] == p[|p| - 1] && (p + q)[0] == p[0]);
      var st := SnakeStep(Snaking(p, prev), c);
      assert st.out == p + [c];
      assert p + q == (p + [c]) + q[1..];
      FoldCopies(p + [c], st.prevLowerOrDigit, q[1..]);
    }
  }

  /** The names left alone are exactly the proper ones; in particular normalising twice changes
      nothing more. */
  lemma SnakeFixed(s: string)
    ensures Snake(s) == s <==> SnakeName(s)
    ensures Snake(Snake(s)) == Snake(s)
  {
    SnakeNames(s);
    if SnakeName(s) {
      SnakeKeeps(s);
    }
    SnakeKeeps(Snake(s));
  }

  lemma SnakeKeeps(s: string)
    requires SnakeName(s)
    ensures Snake(s) == s
  {
    assert "" + s == s;
    FoldCopies("", false, s);
    assert TrimRight(s) == s && TrimLeft(s) == s;
  }

  // --------------------------------------------------------------- pascal case

  datatype Casing = Casing(out: string, up: bool)

  function PascalStep(st: Casing, c: char): Casing {
    if IsAlnum(c) then Casing(st.out + [if st.up then ToUpper(c) else c], false) else Casing(st.out, true)
  }

  function PascalFold(st: Casing, s: string): Casing
    decreases |s|
  {
    if s == "" then st else PascalFold(PascalStep(st, s[0]), s[1..])
  }

  function PascalFinish(out: string): string {
    if out == "" then "Unnamed" else if IsDigit(out[0]) then "V" + out else out
  }

  function Pascal(s: string): string {
    PascalFinish(PascalFold(Casing("", true), s).out)
  }

  method PascalLoop(s: string) returns (r: string)
    ensures r == Pascal(s)
  {
    var out := "";
    var up := true;
    for i := 0 to |s|
      invariant PascalFold(Casing(out, up), s[i..]) == PascalFold(Casing("", true), s)
    {
      var c := s[i];
      assert s[i..][1..] == s[i + 1..];
      if IsAlnum(c) {
        if up {
          out := out + [ToUpper(c)];
          up := false;
        } else {
          out := out + [c];
        }
      } else {
        up := true;
      }
    }
    return if out == "" then "Unnamed" else if IsDigit(out[0]) then "V" + out else out;
  }

  /** An identifier of letters and digits that starts with a capital. */
  predicate PascalName(s: string) {
    s != "" && IsUpper(s[0]) && forall i :: 0 <= i < |s| ==> IsAlnum(s[i])
  }

  predicate Capitalised(st: Casing) {
    && (forall i :: 0 <= i < |st.out| ==> IsAlnum(st.out[i]))
    && (st.out == "" ==> st.up)
    && (st.out != "" ==> !IsLower(st.out[0]))
  }

  lemma {:induction false} FoldCapitalised(st: Casing, s: string)
    requires Capitalised(st)
    ensures Capitalised(PascalFold(st, s))
    decreases |s|
  {
    if s != "" {
      FoldCapitalised(PascalStep(st, s[0]), s[1..]);
    }
  }

  lemma PascalNames(s: string)
    ensures PascalName(Pascal(s))
  {
    FoldCapitalised(Casing("", true), s);
    var out := PascalFold(Casing("", true), s).out;
    if out != "" && IsDigit(out[0]) {
      assert forall i :: 1 <= i < |"V" + out| ==> ("V" + out)[i] == out[i - 1];
    }
  }

  lemma {:induction false} PascalCopies(p: string, q: string)
    requires forall i :: 0 <= i < |q| ==> IsAlnum(q[i])
    ensures PascalFold(Casing(p, false), q).out == p + q
    decreases |q|
  {
    if q == "" {
      assert p + q == p;
    } else {
      assert p + q == (p + [q[0]]) + q[1..];
      PascalCopies(p + [q[0]], q[1..]);
    }
  }

  lemma PascalKeeps(s: string)
    requires PascalName(s)
    ensures Pascal(s) == s
  {
    var st := PascalStep(Casing("", true), s[0]);
    assert st == Casing([s[0]], false);
    PascalCopies([s[0]], s[1..]);
    assert [s[0]] + s[1..] == s;
  }

  lemma PascalFixed(s: string)
    ensures Pascal(s) == s <==> PascalName(s)
    ensures Pascal(Pascal(s)) == Pascal(s)
  {
    PascalNames(s);
    if PascalName(s) {
      PascalKeeps(s);
    }
    PascalKeeps(Pascal(s));
  }

  // ---------------------------------------------------- the names spelt out, place by place

  const UPPER: string := "ABCDEFGHIJKLMNOPQRSTUVWXYZ"
  const LOWER: string := "abcdefghijklmnopqrstuvwxyz"

  /** The character classes, letter by letter. */
  lemma Letters(c: char)
    ensures IsUpper(c) <==> exists i :: 0 <= i < 26 && UPPER[i] == c
    ensures IsLower(c) <==> exists i :: 0 <= i < 26 && LOWER[i] == c
  {
    if IsUpper(c) {
      assert UPPER[c as int - 'A' as int] == c;
    }
    if IsLower(c) {
      assert LOWER[c as int - 'a' as int] == c;
    }
  }

  lemma Digits(c: char)
    ensures IsDigit(c) <==> c in "0123456789"
  {
    if IsDigit(c) {
      assert "0123456789"[c as int - '0' as int] == c;
    }
  }

  /** Changing case keeps the place in the alphabet. */
  lemma CaseKeepsPlace(i: nat)
    requires i < 26
    ensures ToLower(UPPER[i]) == LOWER[i] && ToUpper(LOWER[i]) == UPPER[i] && ToUpper(UPPER[i]) == UPPER[i]
  {
  }

  function Small(c: char): char {
    if IsUpper(c) then ToLower(c) else c
  }

  /** A new word starts at `i`: something other than a letter or digit stands before it, or it is a
      capital directly after a small letter or a digit. */
  predicate StartsWord(s: string, i: nat)
    requires i < |s|
  {
    i > 0 && (!IsAlnum(s[i - 1]) || (IsUpper(s[i]) && (IsLower(s[i - 1]) || IsDigit(s[i - 1]))))
  }

  /** The letters and digits of `s` in small letters, with an underscore before each new word but the
      first. */
  function SnakeSpelt(s: string): string {
    if s == "" then ""
    else
      var n := |s| - 1;
      var before := SnakeSpelt(s[..n]);
      if !IsAlnum(s[n]) then before
      else before + (if before != "" && StartsWord(s, n) then "_" else "") + [Small(s[n])]
  }

  lemma {:induction false} SnakeFoldAppend(st: Snaking, s: string, c: char)
    ensures SnakeFold(st, s + [c]) == SnakeStep(SnakeFold(st, s), c)
    decreases |s|
  {
    if s == "" {
      assert s + [c] == [c] && [c][1..] == "";
    } else {
      assert (s + [c])[0] == s[0] && (s + [c])[1..] == s[1..] + [c];
      SnakeFoldAppend(SnakeStep(st, s[0]), s[1..], c);
    }
  }

  predicate LastIsWord(s: string) {
    s != "" && IsAlnum(s[|s| - 1])
  }

  predicate LastIsLow(s: string) {
    s != "" && (IsLower(s[|s| - 1]) || IsDigit(s[|s| - 1]))
  }

  /** The state of the loop after `s`: what is spelt so far, and an underscore that may turn out to be
      trailing. */
  function SnakeState(s: string): Snaking {
    var t := SnakeSpelt(s);
    Snaking(t + (if t != "" && !LastIsWord(s) then "_" else ""), LastIsLow(s))
  }

  lemma SpeltEnds(s: string)
    ensures SnakeSpelt(s) != "" ==> SnakeSpelt(s)[|SnakeSpelt(s)| - 1] != '_'
    ensures LastIsWord(s) ==> SnakeSpelt(s) != ""
    decreases |s|
  {
    if s != "" {
      SpeltEnds(s[..|s| - 1]);
    }
  }

  lemma SnakeStateStep(s: string)
    requires s != ""
    ensures SnakeStep(SnakeState(s[..|s| - 1]), s[|s| - 1]) == SnakeState(s)
  {
    var n := |s| - 1;
    var p, c := s[..n], s[n];
    SpeltEnds(p);
    assert p != "" ==> p[n - 1] == s[n - 1];
    assert SnakeSpelt(p) + "" == SnakeSpelt(p);
  }

  lemma {:induction false} SnakeRuns(s: string)
    ensures SnakeFold(Snaking("", false), s) == SnakeState(s)
    decreases |s|
  {
    if s != "" {
      var n := |s| - 1;
      SnakeRuns(s[..n]);
      SnakeStateStep(s);
      SnakeFoldAppend(Snaking("", false), s[..n], s[n]);
      assert s[..n] + [s[n]] == s;
    }
  }

  /** What `snake` makes of every name: its spelling, `field` when that is empty, and `f_` before it when
      it starts with a digit. */
  lemma SnakeSpells(s: string)
    ensures var t := SnakeSpelt(s);
            Snake(s) == if t == "" then "field" else if t[0] in "0123456789" then "f_" + t else t
  {
    var t, out := SnakeSpelt(s), SnakeState(s).out;
    SnakeRuns(s);
    SpeltEnds(s);
    FoldSpaced(Snaking("", false), s);
    SpeltTrims(t, out);
    if t != "" {
      Digits(t[0]);
    }
  }

  lemma SpeltTrims(t: string, out: string)
    requires Spaced(out) && (out == t || (t != "" && out == t + "_")) && !EndsWith(t, '_')
    ensures TrimLeft(TrimRight(out)) == t
  {
    if out != t {
      assert out[..|out| - 1] == t;
    }
    assert TrimRight(out) == t;
    assert t != "" ==> t[0] == out[0];
  }

  function Without(s: string, c: char): string {
    if s == "" then ""
    else Without(s[..|s| - 1], c) + if s[|s| - 1] == c then "" else [s[|s| - 1]]
  }

  /** The letters and digits of `s`, in small letters. */
  function SmallLetters(s: string): string {
    if s == "" then ""
    else SmallLetters(s[..|s| - 1]) + if IsAlnum(s[|s| - 1]) then [Small(s[|s| - 1])] else ""
  }

  lemma WithoutAppend(a: string, c: char, d: char)
    ensures Without(a + [d], c) == Without(a, c) + if d == c then "" else [d]
  {
    assert (a + [d])[..|a|] == a;
  }

  /** The underscores are all that is added. */
  lemma {:induction false} SnakeKeepsLetters(s: string)
    ensures Without(SnakeSpelt(s), '_') == SmallLetters(s)
    decreases |s|
  {
    if s != "" {
      var n := |s| - 1;
      SnakeKeepsLetters(s[..n]);
      if IsAlnum(s[n]) {
        OneMoreLetter(SnakeSpelt(s[..n]), Small(s[n]));
      }
    }
  }

  lemma OneMoreLetter(before: string, c: char)
    requires c != '_'
    ensures Without(before + "_" + [c], '_') == Without(before, '_') + [c]
    ensures Without(before + "" + [c], '_') == Without(before, '_') + [c]
  {
    WithoutAppend(before, '_', '_');
    WithoutAppend(before + "_", '_', c);
    WithoutAppend(before, '_', c);
    assert before + "" == before;
    assert Without(before, '_') + "" == Without(before, '_');
  }

  /** The letters and digits of `s`, each capital where nothing, or something other than a letter or
      digit, stands before it, and unchanged elsewhere. */
  function PascalSpelt(s: string): string {
    if s == "" then ""
    else
      var n := |s| - 1;
      PascalSpelt(s[..n])
      + if !IsAlnum(s[n]) then "" else if n == 0 || !IsAlnum(s[n - 1]) then [ToUpper(s[n])] else [s[n]]
  }

  lemma {:induction false} PascalFoldAppend(st: Casing, s: string, c: char)
    ensures PascalFold(st, s + [c]) == PascalStep(PascalFold(st, s), c)
    decreases |s|
  {
    if s == "" {
      assert s + [c] == [c] && [c][1..] == "";
    } else {
      assert (s + [c])[0] == s[0] && (s + [c])[1..] == s[1..] + [c];
      PascalFoldAppend(PascalStep(st, s[0]), s[1..], c);
    }
  }

  function PascalState(s: string): Casing {
    Casing(PascalSpelt(s), !LastIsWord(s))
  }

  lemma PascalStateStep(s: string)
    requires s != ""
    ensures PascalStep(PascalState(s[..|s| - 1]), s[|s| - 1]) == PascalState(s)
  {
    var n := |s| - 1;
    assert n > 0 ==> s[..n][n - 1] == s[n - 1];
    assert PascalSpelt(s[..n]) + "" == PascalSpelt(s[..n]);
  }

  lemma {:induction false} PascalRuns(s: string)
    ensures PascalFold(Casing("", true), s) == PascalState(s)
    decreases |s|
  {
    if s != "" {
      var n := |s| - 1;
      PascalRuns(s[..n]);
      PascalStateStep(s);
      PascalFoldAppend(Casing("", true), s[..n], s[n]);
      assert s[..n] + [s[n]] == s;
    }
  }

  /** What `pascal` makes of every name: its spelling, `Unnamed` when that is empty, and `V` before it
      when it starts with a digit. */
  lemma PascalSpells(s: string)
    ensures var t := PascalSpelt(s);
            Pascal(s) == if t == "" then "Unnamed" else if t[0] in "0123456789" then "V" + t else t
  {
    PascalRuns(s);
    if PascalSpelt(s) != "" {
      Digits(PascalSpelt(s)[0]);
    }
  }
}
