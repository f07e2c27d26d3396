/** Key=value metadata of volumes and storage domains: the printers and the readers of
    crates/vdsm-storage/src/volumes.rs and crates/vdsm-storage/src/domain.rs. */
module Metadata {

  // ------------------------------------------------------------- text primitives

  /** `char::is_whitespace`. */
  predicate IsSpace(c: char) {
    || 0x09 <= c as int <= 0x0D || c as int == 0x20 || c as int == 0x85 || c as int == 0xA0
    || c as int == 0x1680 || 0x2000 <= c as int <= 0x200A || c as int == 0x2028 || c as int == 0x2029
    || c as int == 0x202F || c as int == 0x205F || c as int == 0x3000
  }

  /** That is, the code points with the property White_Space. */
  lemma WhiteSpace(c: char)
    ensures IsSpace(c) <==>
            c as int in {0x09, 0x0A, 0x0B, 0x0C, 0x0D, 0x20, 0x85, 0xA0, 0x1680, 0x2000, 0x2001, 0x2002, 0x2003, 0x2004,
                         0x2005, 0x2006, 0x2007, 0x2008, 0x2009, 0x200A, 0x2028, 0x2029, 0x202F, 0x205F, 0x3000}
  {
  }

  function TrimStart(s: string): string {
    if s != "" && IsSpace(s[0]) then TrimStart(s[1..]) else s
  }

  function TrimEnd(s: string): string {
    if s != "" && IsSpace(s[|s| - 1]) then TrimEnd(s[..|s| - 1]) else s
  }

  function Trim(s: string): string {
    TrimEnd(TrimStart(s))
  }

  /** Index of the first `c` in `s`, or the length of `s`. */
  function Find(s: string, c: char): (i: nat)
    ensures i <= |s| && c !in s[..i] && (i < |s| ==> s[i] == c)
  {
    if s == "" || s[0] == c then 0
    else
      assert s[..Find(s[1..], c) + 1] == [s[0]] + s[1..][..Find(s[1..], c)];
      Find(s[1..], c) + 1
  }

  function StripCr(s: string): string {
    if s != "" && s[|s| - 1] == '\r' then s[..|s| - 1] else s
  }

  /** `str::lines`. */
  function Lines(s: string): seq<string>
    decreases |s|
  {
    if s == "" then []
    else
      var i := Find(s, '\n');
      if i == |s| then [s] else [StripCr(s[..i])] + Lines(s[i + 1..])
  }

  // ------------------------------------------------------------ reader and printer

  type Meta = map<string, string>

  /** One line: split at the first '=', both sides trimmed, later lines over earlier ones. */
  function Put(m: Meta, line: string): Meta {
    var i := Find(line, '=');
    if i == |line| then m else m[Trim(line[..i]) := Trim(line[i + 1..])]
  }

  function Fold(m: Meta, ls: seq<string>): Meta
    decreases |ls|
  {
    if ls == [] then m else Fold(Put(m, ls[0]), ls[1..])
  }

  function ReadMeta(text: string): Meta {
    Fold(map[], Lines(text))
  }

  /** The reader loop of `volume_get_info` and `get_storage_domain_info`. */
  method ReadLoop(content: string) returns (m: Meta)
    ensures m == ReadMeta(content)
  {
    m := map[];
    var ls := Lines(content);
    for n := 0 to |ls|
      invariant Fold(m, ls[n..]) == ReadMeta(content)
    {
      var line := ls[n];
      assert ls[n..][0] == line && ls[n..][1..] == ls[n + 1..];
      ghost var before := m;
      var i := Find(line, '=');
      if i < |line| {
        m := m[Trim(line[..i]) := Trim(line[i + 1..])];
      }
      assert m == Put(before, line);
    }
  }

  datatype Entry = Entry(key: string, value: string)

  function PrintEntry(e: Entry): string {
    e.key + "=" + e.value + "\n"
  }

  function Print(es: seq<Entry>): string {
    if es == [] then "" else PrintEntry(es[0]) + Print(es[1..])
  }

  function MapOf(m: Meta, es: seq<Entry>): Meta
    decreases |es|
  {
    if es == [] then m else MapOf(m[es[0].key := es[0].value], es[1..])
  }

  // --------------------------------------------------------------------- lemmas

  /** A value that survives: one line, no white space at either end. */
  predicate Clean(v: string) {
    '\n' !in v && (v != "" ==> !IsSpace(v[0]) && !IsSpace(v[|v| - 1]))
  }

  lemma CleanTrims(v: string)
    requires Clean(v)
    ensures Trim(v) == v
  {
  }

  /** Texts of visible ASCII characters. */
  predicate Visible(s: string) {
    forall i :: 0 <= i < |s| ==> 0x20 < s[i] as int < 0x7F
  }

  lemma VisibleClean(s: string)
    requires Visible(s)
    ensures Clean(s)
  {
  }

  predicate GoodKey(k: string) {
    Clean(k) && '=' !in k
  }

  predicate GoodKeys(es: seq<Entry>) {
    forall i :: 0 <= i < |es| ==> GoodKey(es[i].key)
  }

  predicate CleanEntries(es: seq<Entry>) {
    forall i :: 0 <= i < |es| ==> Clean(es[i].value)
  }

  lemma {:induction false} FindUnique(s: string, c: char, i: nat)
    requires i <= |s| && c !in s[..i] && (i < |s| ==> s[i] == c)
    ensures Find(s, c) == i
  {
    if i > 0 {
      assert s[..i][0] == s[0] && s[1..][..i - 1] == s[..i][1..];
      FindUnique(s[1..], c, i - 1);
    }
  }

  lemma LinesFirst(a: string, b: string)
    requires '\n' !in a
    ensures Lines(a + "\n" + b) == [StripCr(a)] + Lines(b)
  {
    var s := a + "\n" + b;
    assert s[..|a|] == a && s[|a| + 1..] == b;
    FindUnique(s, '\n', |a|);
  }

  /** The last line counts whether or not a line feed ends it. */
  lemma LastLine(a: string)
    requires '\n' !in a
    ensures Lines(a) == if a == "" then [] else [a]
  {
    FindUnique(a, '\n', |a|);
  }

  lemma {:induction false} LinesSplit(a: string, b: string)
    ensures Lines(a + "\n" + b) == Lines(a + "\n") + Lines(b)
    decreases |a|
  {
    var i := Find(a, '\n');
    assert a + "\n" == a + "\n" + "";
    if i == |a| {
      assert a[..i] == a;
      LinesFirst(a, b);
      LinesFirst(a, "");
    } else {
      var x, y := a[..i], a[i + 1..];
      assert a == x + "\n" + y;
      Regroup(x, y, b);
      LinesFirst(x, y + "\n" + b);
      LinesFirst(x, y + "\n");
      LinesSplit(y, b);
      Prepend([StripCr(x)], Lines(y + "\n"), Lines(b));
    }
  }

  lemma Regroup(x: string, y: string, b: string)
    ensures x + "\n" + y + "\n" + b == x + "\n" + (y + "\n" + b)
    ensures x + "\n" + y + "\n" == x + "\n" + (y + "\n")
  {
  }

  lemma Prepend(p: seq<string>, q: seq<string>, r: seq<string>)
    ensures p + (q + r) == (p + q) + r
  {
  }

  lemma {:induction false} FoldConcat(m: Meta, a: seq<string>, b: seq<string>)
    ensures Fold(m, a + b) == Fold(Fold(m, a), b)
    decreases |a|
  {
    if a == [] {
      assert a + b == b;
    } else {
      assert (a + b)[1..] == a[1..] + b;
      FoldConcat(Put(m, a[0]), a[1..], b);
    }
  }

  /** Lines read over a map act as what they hold by themselves, put over the map. */
  lemma {:induction false} FoldOver(m: Meta, n: Meta, ls: seq<string>)
    ensures Fold(m + n, ls) == m + Fold(n, ls)
    decreases |ls|
  {
    if ls != [] {
      assert Put(m + n, ls[0]) == m + Put(n, ls[0]);
      FoldOver(m, Put(n, ls[0]), ls[1..]);
    }
  }

  lemma EntryLine(e: Entry)
    requires GoodKey(e.key) && Clean(e.value)
    ensures var line := e.key + "=" + e.value;
            StripCr(line) == line && '\n' !in line && forall m :: Put(m, line) == m[e.key := e.value]
  {
    var line := e.key + "=" + e.value;
    CleanTrims(e.key);
    CleanTrims(e.value);
    SplitsAt(e.key, e.value);
    KeepsCr(e.key, e.value);
  }

  lemma KeepsCr(k: string, v: string)
    requires Clean(v)
    ensures StripCr(k + "=" + v) == k + "=" + v
  {
  }

  lemma SplitsAt(k: string, v: string)
    requires '=' !in k
    ensures var line := k + "=" + v;
            Find(line, '=') == |k| && line[..|k|] == k && line[|k| + 1..] == v
  {
    var line := k + "=" + v;
    assert line[..|k|] == k;
    FindUnique(line, '=', |k|);
  }

  lemma {:induction false} FoldPrinted(m: Meta, es: seq<Entry>, rest: string)
    requires GoodKeys(es) && CleanEntries(es)
    ensures Fold(m, Lines(Print(es) + rest)) == Fold(MapOf(m, es), Lines(rest))
    decreases |es|
  {
    if es == [] {
      assert Print(es) + rest == rest;
    } else {
      var line, tail := es[0].key + "=" + es[0].value, Print(es[1..]) + rest;
      assert Print(es) + rest == line + "\n" + tail;
      EntryLine(es[0]);
      LinesFirst(line, tail);
      FoldPrinted(m[es[0].key := es[0].value], es[1..], rest);
    }
  }

  lemma OneEntry(e: Entry)
    requires GoodKey(e.key) && Clean(e.value)
    ensures ReadMeta(PrintEntry(e)) == map[e.key := e.value]
  {
    var es := [e];
    assert es[1..] == [] && Print(es[1..]) == "";
    assert Print(es) + "" == PrintEntry(e);
    FoldPrinted(map[], es, "");
    assert MapOf(map[], es) == MapOf(map[e.key := e.value], es[1..]);
  }

  /** A footer without '=' that adds nothing to what is read. */
  predicate Footer(text: string) {
    forall i :: 0 <= i < |Lines(text)| ==> '=' !in Lines(text)[i]
  }

  lemma {:induction false} FoldFooter(m: Meta, ls: seq<string>)
    requires forall i :: 0 <= i < |ls| ==> '=' !in ls[i]
    ensures Fold(m, ls) == m
    decreases |ls|
  {
    if ls != [] {
      assert Put(m, ls[0]) == m;
      FoldFooter(m, ls[1..]);
    }
  }

  // ----------------------------------------------------- every value read is clean

  lemma {:induction false} TrimStartKeeps(s: string)
    ensures forall i :: 0 <= i < |TrimStart(s)| ==> TrimStart(s)[i] in s
    ensures TrimStart(s) == "" || !IsSpace(TrimStart(s)[0])
  {
    if s != "" && IsSpace(s[0]) {
      TrimStartKeeps(s[1..]);
    }
  }

  lemma {:induction false} TrimEndKeeps(s: string)
    ensures TrimEnd(s) <= s
    ensures TrimEnd(s) == "" || !IsSpace(TrimEnd(s)[|TrimEnd(s)| - 1])
  {
    if s != "" && IsSpace(s[|s| - 1]) {
      TrimEndKeeps(s[..|s| - 1]);
    }
  }

  lemma TrimClean(s: string)
    requires '\n' !in s
    ensures Clean(Trim(s))
  {
    TrimStartKeeps(s);
    TrimEndKeeps(TrimStart(s));
    var t := Trim(s);
    assert t != "" ==> t[0] == TrimStart(s)[0];
    assert forall i :: 0 <= i < |t| ==> t[i] == TrimStart(s)[i];
  }

  predicate CleanLines(ls: seq<string>) {
    forall i :: 0 <= i < |ls| ==> '\n' !in ls[i]
  }

  lemma {:induction false} LinesClean(s: string)
    ensures CleanLines(Lines(s))
    decreases |s|
  {
    if s != "" {
      var i := Find(s, '\n');
      if i < |s| {
        LinesClean(s[i + 1..]);
      } else {
        assert s[..i] == s;
      }
    }
  }

  predicate CleanValues(m: Meta) {
    forall k :: k in m ==> Clean(m[k])
  }

  lemma {:induction false} FoldClean(m: Meta, ls: seq<string>)
    requires CleanLines(ls) && CleanValues(m)
    ensures CleanValues(Fold(m, ls))
    decreases |ls|
  {
    if ls != [] {
      var i := Find(ls[0], '=');
      if i < |ls[0]| {
        TrimClean(ls[0][i + 1..]);
      }
      FoldClean(Put(m, ls[0]), ls[1..]);
    }
  }

  /** Whatever the file holds, no value read from it spans lines or has white space at an end. */
  lemma ReadIsClean(text: string)
    ensures CleanValues(ReadMeta(text))
  {
    LinesClean(text);
    FoldClean(map[], Lines(text));
  }

  // --------------------------------------------------------------- the theorems

  predicate Distinct(es: seq<Entry>) {
    forall i, j :: 0 <= i < j < |es| ==> es[i].key != es[j].key
  }

  lemma {:induction false} MapOfEntry(m: Meta, es: seq<Entry>, i: nat)
    requires i < |es| && forall j :: i < j < |es| ==> es[j].key != es[i].key
    ensures es[i].key in MapOf(m, es) && MapOf(m, es)[es[i].key] == es[i].value
    decreases |es|
  {
    var m' := m[es[0].key := es[0].value];
    if i > 0 {
      MapOfEntry(m', es[1..], i - 1);
    } else {
      MapOfOther(m', es[1..], es[0].key);
    }
  }

  lemma {:induction false} MapOfOther(m: Meta, es: seq<Entry>, k: string)
    requires forall i :: 0 <= i < |es| ==> es[i].key != k
    ensures k in MapOf(m, es) <==> k in m
    ensures k in m ==> MapOf(m, es)[k] == m[k]
    decreases |es|
  {
    if es != [] {
      MapOfOther(m[es[0].key := es[0].value], es[1..], k);
    }
  }

  /** Printer and reader undo each other exactly when every value is one line with no white space
      at its ends; '=' inside a value is harmless. */
  lemma PrintedReadsBack(es: seq<Entry>, foot: string)
    requires GoodKeys(es) && Distinct(es) && Footer(foot)
    ensures ReadMeta(Print(es) + foot) == MapOf(map[], es)
            <==> CleanEntries(es)
  {
    if CleanEntries(es) {
      FoldPrinted(map[], es, foot);
      FoldFooter(MapOf(map[], es), Lines(foot));
    } else {
      var i :| 0 <= i < |es| && !Clean(es[i].value);
      MapOfEntry(map[], es, i);
      ReadIsClean(Print(es) + foot);
    }
  }

  lemma CleanConcat(a: seq<Entry>, b: seq<Entry>)
    ensures CleanEntries(a + b) <==> CleanEntries(a) && CleanEntries(b)
  {
    assert forall i :: 0 <= i < |a| ==> (a + b)[i] == a[i];
    assert forall i :: 0 <= i < |b| ==> (a + b)[|a| + i] == b[i];
  }

  lemma Clean4(a: Entry, b: Entry, c: Entry, d: Entry)
    ensures CleanEntries([a, b, c, d]) <==> Clean(a.value) && Clean(b.value) && Clean(c.value) && Clean(d.value)
  {
    var es := [a, b, c, d];
    assert es[0] == a && es[1] == b && es[2] == c && es[3] == d;
  }

  lemma Clean5(a: Entry, b: Entry, c: Entry, d: Entry, e: Entry)
    ensures CleanEntries([a, b, c, d, e]) <==>
            Clean(a.value) && Clean(b.value) && Clean(c.value) && Clean(d.value) && Clean(e.value)
  {
    var es := [a, b, c, d, e];
    assert es[0] == a && es[1] == b && es[2] == c && es[3] == d && es[4] == e;
  }

  /** Lines printed last are read back right whatever text stands before them: later lines win. */
  lemma LaterLinesWin(before: string, es: seq<Entry>, foot: string, i: nat)
    requires GoodKeys(es) && Distinct(es) && CleanEntries(es) && Footer(foot) && i < |es|
    ensures var m := ReadMeta(before + "\n" + (Print(es) + foot));
            es[i].key in m && m[es[i].key] == es[i].value
  {
    var m := Fold(map[], Lines(before + "\n"));
    LinesSplit(before, Print(es) + foot);
    FoldConcat(map[], Lines(before + "\n"), Lines(Print(es) + foot));
    FoldPrinted(m, es, foot);
    FoldFooter(MapOf(m, es), Lines(foot));
    MapOfEntry(m, es, i);
  }

  predicate Blank(s: string) {
    forall i :: 0 <= i < |s| ==> IsSpace(s[i])
  }

  lemma {:induction false} BlankFront(a: string, v: string)
    requires Blank(a) && (v != "" ==> !IsSpace(v[0]))
    ensures TrimStart(a + v) == v
  {
    if a == "" {
      assert a + v == v;
    } else {
      assert (a + v)[1..] == a[1..] + v;
      BlankFront(a[1..], v);
    }
  }

  lemma {:induction false} BlankEnd(v: string, b: string)
    requires Blank(b) && (v != "" ==> !IsSpace(v[|v| - 1]))
    ensures TrimEnd(v + b) == v
  {
    if b == "" {
      assert v + b == v;
    } else {
      var n := |b| - 1;
      assert (v + b)[..|v| + n] == v + b[..n] && (v + b)[|v| + n] == b[n];
      BlankEnd(v, b[..n]);
    }
  }

  lemma BlankAround(a: string, v: string, b: string)
    requires Blank(a) && Blank(b) && (v != "" ==> !IsSpace(v[0]) && !IsSpace(v[|v| - 1]))
    ensures Trim(a + v + b) == v
  {
    if v == "" {
      assert a + v + b == (a + b) + "";
      BlankFront(a + b, "");
    } else {
      assert a + v + b == a + (v + b) && (v + b)[0] == v[0];
      BlankFront(a, v + b);
      BlankEnd(v, b);
    }
  }

  /** A line means its key and its value, whatever white space stands around them. */
  lemma SpacedLineReads(m: Meta, a: string, k: string, b: string, c: string, v: string, d: string)
    requires Blank(a) && Blank(b) && Blank(c) && Blank(d) && GoodKey(k) && Clean(v)
    ensures Put(m, a + k + b + "=" + (c + v + d)) == m[k := v]
  {
    assert forall i :: 0 <= i < |a| ==> IsSpace(a[i]);
    assert '=' !in a + k + b;
    SplitsAt(a + k + b, c + v + d);
    BlankAround(a, k, b);
    BlankAround(c, v, d);
  }
}
