/** The deduplicating emitters of the schema compiler: struct fields and the verb tables
    (`emit_type`, `emit_verb_table` and `emit_verb_request_structs` in crates/vdsm-schema/build.rs). */
module Codegen {
  import opened Prelude
  import opened Identifiers

  // ------------------------------------------------- keeping the first of each key

  /** `names[i]` is the first with its key. */
  ghost predicate FirstAt(names: seq<string>, key: string -> string, i: nat)
    requires i < |names|
  {
    forall j :: 0 <= j < i ==> key(names[j]) != key(names[i])
  }

  /** The names whose key no earlier name has, in order. */
  function Firsts(names: seq<string>, key: string -> string): seq<string> {
    if names == [] then []
    else
      var front, last := names[..|names| - 1], names[|names| - 1];
      Firsts(front, key) + (if exists j :: 0 <= j < |front| && key(front[j]) == key(last) then [] else [last])
  }

  /** The emitters' loop over names with its set of keys seen. */
  method KeepFirsts(names: seq<string>, key: string -> string) returns (kept: seq<string>)
    ensures kept == Firsts(names, key)
  {
    kept := [];
    var seen: set<string> := {};
    for i := 0 to |names|
      invariant kept == Firsts(names[..i], key)
      invariant seen == set j | 0 <= j < i :: key(names[j])
    {
      var k := key(names[i]);
      var front := names[..i];
      assert names[..i + 1][..i] == front && names[..i + 1][i] == names[i];
      assert k in seen <==> exists j :: 0 <= j < |front| && key(front[j]) == k by {
        if k in seen {
          var j :| 0 <= j < i && key(names[j]) == k;
          assert key(front[j]) == k;
        }
        if j :| 0 <= j < |front| && key(front[j]) == k {
          assert key(names[j]) == k;
        }
      }
      if k !in seen {
        kept := kept + [names[i]];
      }
      seen := seen + {k};
    }
    assert names[..|names|] == names;
  }

  lemma FirstInPrefix(names: seq<string>, key: string -> string, m: nat, i: nat)
    requires i < m <= |names|
    ensures FirstAt(names[..m], key, i) <==> FirstAt(names, key, i)
  {
    assert forall j :: 0 <= j <= i ==> names[..m][j] == names[j];
  }

  lemma LastIsFirst(names: seq<string>, key: string -> string)
    requires names != []
    ensures var m := |names| - 1;
            FirstAt(names, key, m) <==> !exists j :: 0 <= j < m && key(names[..m][j]) == key(names[m])
  {
    var m := |names| - 1;
    assert forall j :: 0 <= j < m ==> names[..m][j] == names[j];
  }

  /** Exactly the first names are kept. */
  lemma {:induction false} FirstsExactly(names: seq<string>, key: string -> string, n: string)
    ensures n in Firsts(names, key) <==> exists i :: 0 <= i < |names| && names[i] == n && FirstAt(names, key, i)
    decreases |names|
  {
    if names != [] {
      var m := |names| - 1;
      var front := names[..m];
      FirstsExactly(front, key, n);
      LastIsFirst(names, key);
      if n in Firsts(front, key) {
        var i :| 0 <= i < m && front[i] == n && FirstAt(front, key, i);
        FirstInPrefix(names, key, m, i);
        assert names[i] == n;
      }
      if i :| 0 <= i < m && names[i] == n && FirstAt(names, key, i) {
        FirstInPrefix(names, key, m, i);
        assert front[i] == n;
      }
    }
  }

  /** No two kept names share a key. */
  lemma {:induction false} FirstsDistinct(names: seq<string>, key: string -> string, i: nat, j: nat)
    requires i < j < |Firsts(names, key)|
    ensures key(Firsts(names, key)[i]) != key(Firsts(names, key)[j])
    decreases |names|
  {
    var m := |names| - 1;
    var front := names[..m];
    var kept := Firsts(front, key);
    if j < |kept| {
      FirstsDistinct(front, key, i, j);
    } else {
      assert kept[i] in kept;
      FirstsExactly(front, key, kept[i]);
    }
  }

  /** Every name's key is the key of a kept name. */
  lemma {:induction false} FirstsCover(names: seq<string>, key: string -> string, i: nat)
    requires i < |names|
    ensures exists k :: 0 <= k < |Firsts(names, key)| && key(Firsts(names, key)[k]) == key(names[i])
    decreases |names|
  {
    var m := |names| - 1;
    var front := names[..m];
    var kept, all := Firsts(front, key), Firsts(names, key);
    if i < m || exists j :: 0 <= j < |front| && key(front[j]) == key(names[m]) {
      var j :| 0 <= j < |front| && key(front[j]) == key(names[i]);
      FirstsCover(front, key, j);
      var k :| 0 <= k < |kept| && key(kept[k]) == key(front[j]);
      assert key(all[k]) == key(names[i]);
    } else {
      assert all[|kept|] == names[m];
    }
  }

  // -------------------------------------------------------------- struct fields

  /** A struct field: its identifier, and the wire name when that has to be spelt out. */
  datatype Field = Field(ident: string, rename: Option<string>)

  function Raw(keyword: string -> bool, s: string): string {
    if keyword(s) then "r#" + s else s
  }

  /** `rust_field_ident`, with the list of Rust keywords as a parameter. */
  function FieldOf(keyword: string -> bool, name: string): Field {
    var s := Snake(name);
    Field(Raw(keyword, s), if s != name then Some(name) else None)
  }

  /** `trim_start_matches("r#")`: the identifier without raw prefixes. */
  function Bare(ident: string): string {
    if "r#" <= ident then Bare(ident[2..]) else ident
  }

  /** The name serde puts on the wire. */
  function WireName(f: Field): string {
    match f.rename
    case Some(n) => n
    case None => Bare(f.ident)
  }

  lemma BareField(keyword: string -> bool, name: string)
    ensures Bare(FieldOf(keyword, name).ident) == Snake(name)
  {
    SnakeNames(name);
    var s := Snake(name);
    assert |s| > 1 ==> SnakeChar(s[1]);
    assert ("r#" + s)[2..] == s;
  }

  function FieldsOf(keyword: string -> bool, kept: seq<string>): seq<Field> {
    seq(|kept|, i requires 0 <= i < |kept| => FieldOf(keyword, kept[i]))
  }

  function EmitFields(keyword: string -> bool, names: seq<string>): seq<Field> {
    FieldsOf(keyword, Firsts(names, Snake))
  }

  function BareKey(keyword: string -> bool): string -> string {
    n => Bare(FieldOf(keyword, n).ident)
  }

  lemma BareFirsts(keyword: string -> bool, names: seq<string>)
    ensures Firsts(names, BareKey(keyword)) == Firsts(names, Snake)
  {
    forall n ensures BareKey(keyword)(n) == Snake(n) {
      BareField(keyword, n);
    }
    SameFirsts(names, BareKey(keyword), Snake);
  }

  /** The field loop: properties whose bare identifier was seen before are skipped. */
  method EmitFieldLoop(keyword: string -> bool, names: seq<string>) returns (fields: seq<Field>)
    ensures fields == EmitFields(keyword, names)
  {
    var kept := KeepFirsts(names, BareKey(keyword));
    BareFirsts(keyword, names);
    fields := FieldsOf(keyword, kept);
  }

  lemma {:induction false} SameFirsts(names: seq<string>, f: string -> string, g: string -> string)
    requires forall n :: f(n) == g(n)
    ensures Firsts(names, f) == Firsts(names, g)
    decreases |names|
  {
    if names != [] {
      SameFirsts(names[..|names| - 1], f, g);
    }
  }

  /** The field stands for the schema name `names[n]`, the first with its snake form: that form is its
      identifier, raw when it is a keyword, and the schema name is its wire name. */
  ghost predicate StandsFor(keyword: string -> bool, f: Field, names: seq<string>, n: nat)
    requires n < |names|
  {
    var s := Snake(names[n]);
    && FirstAt(names, Snake, n) && WireName(f) == names[n]
    && f.ident == (if keyword(s) then "r#" + s else s)
    && f.rename == (if s == names[n] then None else Some(names[n]))
  }

  lemma FieldAt(keyword: string -> bool, names: seq<string>, i: nat)
    requires i < |EmitFields(keyword, names)|
    ensures var f, n := EmitFields(keyword, names)[i], Firsts(names, Snake)[i];
            Bare(f.ident) == Snake(n) && WireName(f) == n
  {
    BareField(keyword, Firsts(names, Snake)[i]);
  }

  /** In every emitted struct the fields are pairwise distinct. */
  lemma FieldsDistinct(keyword: string -> bool, names: seq<string>, i: nat, j: nat)
    requires i < j < |EmitFields(keyword, names)|
    ensures Bare(EmitFields(keyword, names)[i].ident) != Bare(EmitFields(keyword, names)[j].ident)
  {
    FieldAt(keyword, names, i);
    FieldAt(keyword, names, j);
    FirstsDistinct(names, Snake, i, j);
  }

  /** Every schema name's snake form is one of the fields. */
  lemma FieldsCover(keyword: string -> bool, names: seq<string>, n: nat)
    requires n < |names|
    ensures exists i :: 0 <= i < |EmitFields(keyword, names)|
                        && Bare(EmitFields(keyword, names)[i].ident) == Snake(names[n])
  {
    FirstsCover(names, Snake, n);
    var k :| 0 <= k < |Firsts(names, Snake)| && Snake(Firsts(names, Snake)[k]) == Snake(names[n]);
    FieldAt(keyword, names, k);
  }

  /** Each field answers on the wire to a schema name, the first with its snake form. */
  lemma FieldsStand(keyword: string -> bool, names: seq<string>, i: nat)
    requires i < |EmitFields(keyword, names)|
    ensures exists n :: 0 <= n < |names| && StandsFor(keyword, EmitFields(keyword, names)[i], names, n)
  {
    var kept := Firsts(names, Snake);
    FieldAt(keyword, names, i);
    assert kept[i] in kept;
    FirstsExactly(names, Snake, kept[i]);
    var n :| 0 <= n < |names| && names[n] == kept[i] && FirstAt(names, Snake, n);
    assert StandsFor(keyword, EmitFields(keyword, names)[i], names, n);
  }

  // -------------------------------------------------------------- the verb tables

  datatype Arm = Arm(pattern: string, result: string)

  /** A Rust `match` over string or variant patterns: the first arm that fits. */
  function Match(arms: seq<Arm>, x: string): Option<string> {
    if arms == [] then None else if arms[0].pattern == x then Some(arms[0].result) else Match(arms[1..], x)
  }

  datatype VerbTable = VerbTable(variants: seq<string>, asStr: seq<Arm>, fromWire: seq<Arm>, requests: seq<string>)

  /** The enum, its two tables and the request structs, each from its own pass over the verbs. */
  method EmitVerbs(verbs: seq<string>) returns (t: VerbTable)
    ensures t == TableOf(Firsts(verbs, Pascal))
  {
    var a := KeepFirsts(verbs, Pascal);
    var variants := seq(|a|, i requires 0 <= i < |a| => Pascal(a[i]));
    var b := KeepFirsts(verbs, Pascal);
    var asStr := seq(|b|, i requires 0 <= i < |b| => Arm(Pascal(b[i]), b[i]));
    var c := KeepFirsts(verbs, Pascal);
    var fromWire := seq(|c|, i requires 0 <= i < |c| => Arm(c[i], Pascal(c[i])));
    var d := KeepFirsts(verbs, Pascal);
    var requests := seq(|d|, i requires 0 <= i < |d| => Pascal(d[i]) + "Request");
    t := VerbTable(variants, asStr, fromWire, requests);
  }

  function TableOf(kept: seq<string>): VerbTable {
    VerbTable(
      seq(|kept|, i requires 0 <= i < |kept| => Pascal(kept[i])),
      seq(|kept|, i requires 0 <= i < |kept| => Arm(Pascal(kept[i]), kept[i])),
      seq(|kept|, i requires 0 <= i < |kept| => Arm(kept[i], Pascal(kept[i]))),
      seq(|kept|, i requires 0 <= i < |kept| => Pascal(kept[i]) + "Request"))
  }

  lemma {:induction false} MatchAt(arms: seq<Arm>, i: nat)
    requires i < |arms| && forall j :: 0 <= j < i ==> arms[j].pattern != arms[i].pattern
    ensures Match(arms, arms[i].pattern) == Some(arms[i].result)
    decreases i
  {
    if i > 0 {
      MatchAt(arms[1..], i - 1);
    }
  }

  lemma {:induction false} MatchFrom(arms: seq<Arm>, x: string)
    requires Match(arms, x).Some?
    ensures exists i :: 0 <= i < |arms| && arms[i] == Arm(x, Match(arms, x).value)
  {
    if arms[0].pattern != x {
      MatchFrom(arms[1..], x);
      var i :| 0 <= i < |arms[1..]| && arms[1..][i] == Arm(x, Match(arms, x).value);
      assert arms[i + 1] == Arm(x, Match(arms, x).value);
    } else {
      assert arms[0] == Arm(x, Match(arms, x).value);
    }
  }

  lemma KeptApart(verbs: seq<string>, i: nat)
    requires i < |Firsts(verbs, Pascal)|
    ensures forall j :: 0 <= j < i ==> Pascal(Firsts(verbs, Pascal)[j]) != Pascal(Firsts(verbs, Pascal)[i])
  {
    var kept := Firsts(verbs, Pascal);
    forall j | 0 <= j < i ensures Pascal(kept[j]) != Pascal(kept[i]) {
      FirstsDistinct(verbs, Pascal, j, i);
    }
  }

  /** What the tables say of a kept verb. */
  lemma TablesAt(verbs: seq<string>, i: nat)
    requires i < |Firsts(verbs, Pascal)|
    ensures var kept := Firsts(verbs, Pascal);
            && Match(TableOf(kept).asStr, Pascal(kept[i])) == Some(kept[i])
            && Match(TableOf(kept).fromWire, kept[i]) == Some(Pascal(kept[i]))
  {
    var t := TableOf(Firsts(verbs, Pascal));
    KeptApart(verbs, i);
    MatchAt(t.asStr, i);
    MatchAt(t.fromWire, i);
  }

  /** `as_str` is total on the enum and `from_wire` undoes it. */
  lemma VerbRoundTrip(verbs: seq<string>, i: nat)
    requires i < |Firsts(verbs, Pascal)|
    ensures var t := TableOf(Firsts(verbs, Pascal));
            var v := t.variants[i];
            Match(t.asStr, v).Some? && Match(t.fromWire, Match(t.asStr, v).value) == Some(v)
  {
    TablesAt(verbs, i);
  }

  /** A name is understood exactly when it is kept. */
  lemma UnderstoodIsKept(verbs: seq<string>, n: string)
    ensures var kept := Firsts(verbs, Pascal);
            Match(TableOf(kept).fromWire, n).Some? <==> n in kept
  {
    var kept := Firsts(verbs, Pascal);
    var arms := TableOf(kept).fromWire;
    if Match(arms, n).Some? {
      MatchFrom(arms, n);
      var i :| 0 <= i < |arms| && arms[i] == Arm(n, Match(arms, n).value);
      assert kept[i] == n;
    }
    if n in kept {
      var i :| 0 <= i < |kept| && kept[i] == n;
      TablesAt(verbs, i);
    }
  }

  /** The other way round: a wire name that is understood names a variant that prints as it; and a
      name is understood exactly when it is the first verb with its Pascal identifier. */
  lemma WireRoundTrip(verbs: seq<string>, n: string)
    ensures var t := TableOf(Firsts(verbs, Pascal));
            && (Match(t.fromWire, n).Some? ==>
                  Match(t.fromWire, n).value in t.variants && Match(t.asStr, Match(t.fromWire, n).value) == Some(n))
            && (Match(t.fromWire, n).Some? <==>
                  exists i :: 0 <= i < |verbs| && verbs[i] == n && FirstAt(verbs, Pascal, i))
  {
    var kept := Firsts(verbs, Pascal);
    UnderstoodIsKept(verbs, n);
    FirstsExactly(verbs, Pascal, n);
    if n in kept {
      var i :| 0 <= i < |kept| && kept[i] == n;
      TablesAt(verbs, i);
      assert TableOf(kept).variants[i] == Pascal(n);
    }
  }

  ghost predicate Named(names: seq<string>, p: string) {
    exists i :: 0 <= i < |names| && Pascal(names[i]) == p
  }

  lemma KeptNamed(verbs: seq<string>, p: string)
    ensures Named(Firsts(verbs, Pascal), p) <==> Named(verbs, p)
  {
    var kept := Firsts(verbs, Pascal);
    if Named(kept, p) {
      var k :| 0 <= k < |kept| && Pascal(kept[k]) == p;
      assert kept[k] in kept;
      FirstsExactly(verbs, Pascal, kept[k]);
    }
    if Named(verbs, p) {
      var i :| 0 <= i < |verbs| && Pascal(verbs[i]) == p;
      FirstsCover(verbs, Pascal, i);
    }
  }

  lemma VariantsNamed(kept: seq<string>, x: string)
    ensures x in TableOf(kept).variants <==> Named(kept, x)
    ensures x + "Request" in TableOf(kept).requests <==> Named(kept, x)
  {
    var t := TableOf(kept);
    if i :| 0 <= i < |kept| && Pascal(kept[i]) == x {
      assert t.variants[i] == x && t.requests[i] == x + "Request";
    }
    if x + "Request" in t.requests {
      var i :| 0 <= i < |t.requests| && t.requests[i] == x + "Request";
      SameStem(Pascal(kept[i]), x, "Request");
    }
  }

  lemma SameStem(a: string, b: string, end: string)
    requires a + end == b + end
    ensures a == b
  {
    assert (a + end)[..|a|] == a && (b + end)[..|b|] == b;
  }

  /** The variants are the Pascal identifiers of the verbs, and there is a request struct for each and
      for nothing else; enum, tables and structs have the same number of entries. */
  lemma TablesComplete(verbs: seq<string>, x: string)
    ensures var t := TableOf(Firsts(verbs, Pascal));
            && (x in t.variants <==> Named(verbs, x)) && (x + "Request" in t.requests <==> Named(verbs, x))
            && |t.variants| == |t.asStr| == |t.fromWire| == |t.requests|
  {
    KeptNamed(verbs, x);
    VariantsNamed(Firsts(verbs, Pascal), x);
  }
}
