/** Backend URL patterns: the placeholders in them, and rewriting `{name}` to `{{.Name}}` one name at a time. */
module Placeholders {
  import opened Replacing
  import opened Seqs

  /** A character that a placeholder may be made of. */
  predicate NameChar(c: char) {
    'a' <= c <= 'z' || 'A' <= c <= 'Z' || '0' <= c <= '9' || c in "_-.:/"
  }

  const LOWER := "abcdefghijklmnopqrstuvwxyz"
  const UPPER := "ABCDEFGHIJKLMNOPQRSTUVWXYZ"
  const OTHERS := "0123456789_-.:/"

  lemma Lower(c: char)
    ensures 'a' <= c <= 'z' <==> c in LOWER
  {
    if 'a' <= c <= 'z' { assert c == LOWER[c as int - 'a' as int]; }
  }

  lemma Upper(c: char)
    ensures 'A' <= c <= 'Z' <==> c in UPPER
  {
    if 'A' <= c <= 'Z' { assert c == UPPER[c as int - 'A' as int]; }
  }

  lemma Other(c: char)
    ensures '0' <= c <= '9' || c in "_-.:/" <==> c in OTHERS
  {
    if '0' <= c <= '9' { assert c == OTHERS[c as int - '0' as int]; }
    assert OTHERS[10..] == "_-.:/";
  }

  /** The characters, one by one. */
  lemma NameChars(c: char)
    ensures NameChar(c) <==> c in LOWER || c in UPPER || c in OTHERS
  {
    Lower(c);
    Upper(c);
    Other(c);
  }

  predicate IsName(s: string) {
    s != "" && forall i | 0 <= i < |s| :: NameChar(s[i])
  }

  // ---- Finding placeholders

  /** A pattern, taken apart at its placeholders. */
  datatype Piece = Lit(c: char) | Hole(name: string)

  /** The longest prefix made of name characters. */
  function Run(s: string): (n: nat)
    ensures n <= |s| && forall i | 0 <= i < n :: NameChar(s[i])
    ensures n < |s| ==> !NameChar(s[n])
  {
    if s == "" || !NameChar(s[0]) then 0 else 1 + Run(s[1..])
  }

  /** A placeholder begins here: a brace, one or more name characters, a brace. */
  predicate Begins(s: string) {
    s != "" && s[0] == '{' && var n := Run(s[1..]); 0 < n < |s| - 1 && s[1 + n] == '}'
  }

  /** All matches of the placeholder expression, leftmost first, and the text between them. */
  function Parse(s: string): seq<Piece> {
    if s == "" then []
    else if Begins(s) then
      var n := Run(s[1..]);
      [Hole(s[1..1 + n])] + Parse(s[2 + n..])
    else [Lit(s[0])] + Parse(s[1..])
  }

  function Show(p: Piece): string {
    if p.Lit? then [p.c] else "{" + p.name + "}"
  }

  function Text(ps: seq<Piece>): string {
    if ps == [] then "" else Show(ps[0]) + Text(ps[1..])
  }

  lemma Reassemble(s: string, n: nat)
    requires 2 + n <= |s| && s[0] == '{' && s[1 + n] == '}'
    ensures "{" + s[1..1 + n] + "}" + s[2 + n..] == s
  {
  }

  lemma {:induction false} TextParse(s: string)
    ensures Text(Parse(s)) == s
  {
    hide Run;
    if s != "" {
      if Begins(s) {
        var n := Run(s[1..]);
        TextParse(s[2 + n..]);
        Reassemble(s, n);
      } else {
        TextParse(s[1..]);
      }
    }
  }

  // ---- Pieces that are what parsing gives

  /** The text goes on with name characters, one of them at least unless `seen`, and a closing brace. */
  predicate Closes(ps: seq<Piece>, seen: bool) {
    ps != [] && ps[0].Lit? && if NameChar(ps[0].c) then Closes(ps[1..], true) else ps[0].c == '}' && seen
  }

  predicate Canonical(ps: seq<Piece>) {
    ps == [] ||
    (&& (ps[0] == Lit('{') ==> !Closes(ps[1..], false))
     && (ps[0].Hole? ==> IsName(ps[0].name))
     && Canonical(ps[1..]))
  }

  lemma {:induction false} ClosesText(ps: seq<Piece>, seen: bool)
    ensures var s := Text(ps); var n := Run(s);
            Closes(ps, seen) <==> n < |s| && s[n] == '}' && (n > 0 || seen)
  {
    if ps != [] && ps[0].Lit? {
      var s := Text(ps);
      assert s[1..] == Text(ps[1..]);
      if NameChar(ps[0].c) { ClosesText(ps[1..], true); }
    }
  }

  lemma {:induction false} RunOf(name: string, s: string)
    requires forall i | 0 <= i < |name| :: NameChar(name[i])
    requires s == "" || !NameChar(s[0])
    ensures Run(name + s) == |name|
  {
    if name == "" {
      assert name + s == s;
    } else {
      assert (name + s)[1..] == name[1..] + s;
      RunOf(name[1..], s);
    }
  }

  lemma ParseHole(name: string, rest: string)
    requires IsName(name)
    ensures Begins("{" + name + "}" + rest)
    ensures Parse("{" + name + "}" + rest) == [Hole(name)] + Parse(rest)
  {
    hide Run, NameChar;
    var s, n := "{" + name + "}" + rest, |name|;
    assert !NameChar('}') by { BraceEnds(); }
    assert s[1..] == name + ("}" + rest);
    RunOf(name, "}" + rest);
    assert s[1..1 + n] == name && s[2 + n..] == rest;
  }

  lemma BraceEnds()
    ensures !NameChar('{') && !NameChar('}')
  {
  }

  /** Such pieces are told apart by their text. */
  lemma {:induction false} ParseText(ps: seq<Piece>)
    requires Canonical(ps)
    ensures Parse(Text(ps)) == ps
  {
    hide Run, NameChar, IsName;
    if ps != [] {
      var rest := Text(ps[1..]);
      ParseText(ps[1..]);
      if ps[0].Hole? {
        ParseHole(ps[0].name, rest);
      } else {
        assert Text(ps)[1..] == rest;
        ClosesText(ps[1..], false);
        assert !Begins(Text(ps));
      }
    }
  }

  lemma {:induction false} ParseCanonical(s: string)
    ensures Canonical(Parse(s))
  {
    if s != "" {
      if Begins(s) {
        ParseCanonical(s[2 + Run(s[1..])..]);
      } else {
        ParseCanonical(s[1..]);
        TextParse(s[1..]);
        ClosesText(Parse(s[1..]), false);
      }
    }
  }

  // ---- One name rewritten

  /** The pieces of `{{.key}}`, which is itself a placeholder between two braces. */
  function Filled(key: string): seq<Piece> {
    [Lit('{'), Hole("." + key), Lit('}')]
  }

  /** The placeholders that have a key rewritten, all at once. */
  function Expand(ps: seq<Piece>, keys: map<string, string>): seq<Piece> {
    if ps == [] then []
    else Rewrite(ps[0], keys) + Expand(ps[1..], keys)
  }

  function Rewrite(p: Piece, keys: map<string, string>): seq<Piece> {
    if p.Hole? && p.name in keys then Filled(keys[p.name]) else [p]
  }

  lemma {:induction false} TextConcat(a: seq<Piece>, b: seq<Piece>)
    ensures Text(a + b) == Text(a) + Text(b)
  {
    if a == [] {
      assert a + b == b;
    } else {
      assert (a + b)[1..] == a[1..] + b;
      TextConcat(a[1..], b);
    }
  }

  lemma FilledText(key: string)
    ensures Text(Filled(key)) == "{{." + key + "}}"
  {
    var ps := Filled(key);
    assert ps[1..] == [Hole("." + key), Lit('}')] && ps[1..][1..] == [Lit('}')] && [Lit('}')][1..] == [];
    assert Text([Lit('}')]) == "}";
    assert Text(ps[1..]) == "{" + ("." + key) + "}" + "}";
  }

  /** Only the placeholder of a name starts with that placeholder. */
  lemma NotHere(ps: seq<Piece>, name: string)
    requires Canonical(ps) && ps != [] && ps[0] != Hole(name) && IsName(name)
    ensures !("{" + name + "}" <= Text(ps))
  {
    hide *;
    var k, s := "{" + name + "}", Text(ps);
    if k <= s {
      assert s == k + s[|k|..];
      ParseHole(name, s[|k|..]);
      ParseText(ps);
    }
  }

  /** One textual replacement rewrites exactly the placeholders of that name. */
  lemma {:induction false} ReplaceExpands(ps: seq<Piece>, name: string, key: string)
    requires Canonical(ps) && IsName(name)
    ensures ReplaceAll(Text(ps), "{" + name + "}", "{{." + key + "}}") == Text(Expand(ps, map[name := key]))
  {
    if ps != [] {
      var k, v := "{" + name + "}", "{{." + key + "}}";
      ReplaceExpands(ps[1..], name, key);
      TextConcat(Rewrite(ps[0], map[name := key]), Expand(ps[1..], map[name := key]));
      if ps[0] == Hole(name) {
        FilledText(key);
        ReplaceHere(Text(ps[1..]), k, v);
      } else {
        NotHere(ps, name);
        PassPiece(ps[0], Text(ps[1..]), k, v);
        assert Text([ps[0]]) == Show(ps[0]);
      }
    }
  }

  lemma ReplaceHere(rest: string, k: string, v: string)
    requires k != ""
    ensures ReplaceAll(k + rest, k, v) == v + ReplaceAll(rest, k, v)
  {
    assert (k + rest)[|k|..] == rest;
  }

  lemma BracedFirst(tail: string, rest: string, k: string, v: string)
    requires k != "" && !(k <= ("{" + tail) + rest)
    ensures ReplaceAll(("{" + tail) + rest, k, v) == "{" + ReplaceAll(tail + rest, k, v)
  {
    var s := ("{" + tail) + rest;
    assert s[0] == '{' && s[1..] == tail + rest;
  }

  lemma PassPiece(p: Piece, rest: string, k: string, v: string)
    requires k != "" && k[0] == '{' && !(k <= Show(p) + rest) && (p.Hole? ==> IsName(p.name))
    ensures ReplaceAll(Show(p) + rest, k, v) == Show(p) + ReplaceAll(rest, k, v)
  {
    if p.Hole? {
      var tail, r := p.name + "}", ReplaceAll(rest, k, v);
      OpaqueName(p.name);
      hide *;
      Reassociate("{", p.name, "}");
      assert Show(p) == "{" + tail by { ShowHole(p); }
      BracedFirst(tail, rest, k, v);
      PassOver(tail, rest, k, v);
      Reassociate("{", tail, r);
    } else {
      var s := Show(p) + rest;
      assert s[0] == p.c && s[1..] == rest;
    }
  }

  lemma ShowHole(p: Piece)
    requires p.Hole?
    ensures Show(p) == "{" + p.name + "}"
  {
  }

  lemma OpaqueName(name: string)
    requires IsName(name)
    ensures Opaque(name + "}")
  {
    hide NameChar;
    BraceEnds();
    forall i | 0 <= i < |name|
      ensures name[i] != '{'
    {
      assert NameChar(name[i]);
    }
  }

  // ---- One name after the other

  /** The names with their first character in title case. */
  function Title(title: char -> char, name: string): string {
    if name == "" then "" else [title(name[0])] + name[1..]
  }

  ghost predicate KeepsNames(title: char -> char) {
    forall c :: NameChar(c) ==> NameChar(title(c))
  }

  function Keys(title: char -> char, names: seq<string>): map<string, string> {
    map name | name in names :: Title(title, name)
  }

  /** The pieces after rewriting `names` in their order. */
  function Rewritten(title: char -> char, ps: seq<Piece>, names: seq<string>): seq<Piece> {
    if names == [] then ps
    else
      var n := |names| - 1;
      Expand(Rewritten(title, ps, names[..n]), map[names[n] := Title(title, names[n])])
  }

  lemma {:induction false} ExpandConcat(a: seq<Piece>, b: seq<Piece>, keys: map<string, string>)
    ensures Expand(a + b, keys) == Expand(a, keys) + Expand(b, keys)
  {
    if a == [] {
      assert a + b == b;
    } else {
      assert (a + b)[1..] == a[1..] + b;
      ExpandConcat(a[1..], b, keys);
    }
  }

  lemma {:induction false} ExpandNothing(ps: seq<Piece>)
    ensures Expand(ps, map[]) == ps
  {
    if ps != [] { ExpandNothing(ps[1..]); }
  }

  lemma ExpandFilled(keys: map<string, string>, key: string)
    requires "." + key !in keys
    ensures Expand(Filled(key), keys) == Filled(key)
  {
    var ps := Filled(key);
    assert ps == [Lit('{')] + ([Hole("." + key)] + ([Lit('}')] + []));
    assert Expand([Lit('}')] + [], keys) == [Lit('}')];
    assert Expand([Hole("." + key)] + ([Lit('}')] + []), keys) == [Hole("." + key)] + [Lit('}')];
  }

  /** One more name, unless an earlier rewriting has just made a placeholder of that name. */
  lemma {:induction false} ExpandMore(ps: seq<Piece>, keys: map<string, string>, x: string, key: string)
    requires x !in keys && forall y | y in keys :: x != "." + keys[y]
    ensures Expand(Expand(ps, keys), map[x := key]) == Expand(ps, keys[x := key])
  {
    if ps != [] {
      var one := map[x := key];
      ExpandMore(ps[1..], keys, x, key);
      ExpandConcat(Rewrite(ps[0], keys), Expand(ps[1..], keys), one);
      if ps[0].Hole? && ps[0].name in keys {
        ExpandFilled(one, keys[ps[0].name]);
      } else {
        assert Expand([ps[0]], one) == Rewrite(ps[0], one) + [];
      }
    }
  }

  /** No name is the placeholder that rewriting an earlier name leaves behind. */
  predicate NoClash(title: char -> char, names: seq<string>) {
    forall i, j | 0 <= i < j < |names| :: names[j] != "." + Title(title, names[i])
  }

  lemma KeysSnoc(title: char -> char, before: seq<string>, last: string)
    ensures Keys(title, before + [last]) == Keys(title, before)[last := Title(title, last)]
  {
  }

  lemma NoClashKeys(title: char -> char, names: seq<string>)
    requires Distinct(names) && NoClash(title, names) && names != []
    ensures var n := |names| - 1; var keys := Keys(title, names[..n]);
            names[n] !in keys && forall y | y in keys :: names[n] != "." + keys[y]
  {
    var n := |names| - 1;
    forall y | y in names[..n]
      ensures y != names[n] && names[n] != "." + Title(title, y)
    {
      var i :| 0 <= i < n && names[i] == y;
    }
  }

  lemma {:induction false} NoClashSimultaneous(title: char -> char, ps: seq<Piece>, names: seq<string>)
    requires Distinct(names) && NoClash(title, names)
    ensures Rewritten(title, ps, names) == Expand(ps, Keys(title, names))
  {
    if names == [] {
      ExpandNothing(ps);
      assert Keys(title, names) == map[];
    } else {
      hide Expand, Keys;
      var n := |names| - 1;
      var before := names[..n];
      NoClashSimultaneous(title, ps, before);
      NoClashKeys(title, names);
      ExpandMore(ps, Keys(title, before), names[n], Title(title, names[n]));
      KeysSnoc(title, before, names[n]);
      assert names == before + [names[n]];
    }
  }

  // ---- Counting

  function Count(ps: seq<Piece>, name: string): nat {
    if ps == [] then 0 else (if ps[0] == Hole(name) then 1 else 0) + Count(ps[1..], name)
  }

  function Braces(ps: seq<Piece>): nat {
    if ps == [] then 0 else (if ps[0] == Lit('{') then 1 else 0) + Braces(ps[1..])
  }

  lemma {:induction false} Counts(a: seq<Piece>, b: seq<Piece>, name: string)
    ensures Count(a + b, name) == Count(a, name) + Count(b, name) && Braces(a + b) == Braces(a) + Braces(b)
  {
    if a == [] {
      assert a + b == b;
    } else {
      assert (a + b)[1..] == a[1..] + b;
      Counts(a[1..], b, name);
    }
  }

  lemma CountFilled(key: string, x: string)
    ensures Count(Filled(key), x) == (if x == "." + key then 1 else 0) && Braces(Filled(key)) == 1
  {
    var ps := Filled(key);
    assert ps == [Lit('{')] + ([Hole("." + key)] + ([Lit('}')] + []));
    assert Count([Lit('}')] + [], x) == 0 && Braces([Lit('}')] + []) == 0;
    assert Count([Hole("." + key)] + ([Lit('}')] + []), x) == if x == "." + key then 1 else 0;
    assert Braces([Hole("." + key)] + ([Lit('}')] + [])) == 0;
  }

  /** Every placeholder rewritten adds one brace, and puts another placeholder in its place. */
  lemma {:induction false} ExpandCounts(ps: seq<Piece>, name: string, key: string, x: string)
    ensures Braces(Expand(ps, map[name := key])) == Braces(ps) + Count(ps, name)
    ensures x != name ==>
      Count(Expand(ps, map[name := key]), x) == Count(ps, x) + if x == "." + key then Count(ps, name) else 0
  {
    if ps != [] {
      var one := map[name := key];
      ExpandCounts(ps[1..], name, key, x);
      Counts(Rewrite(ps[0], one), Expand(ps[1..], one), x);
      if ps[0] == Hole(name) {
        CountFilled(key, x);
      } else {
        assert Rewrite(ps[0], one) == [ps[0]] + [];
      }
    }
  }

  lemma {:induction false} ExpandBraces(ps: seq<Piece>, keys: map<string, string>, x: string, key: string)
    requires x !in keys
    ensures Braces(Expand(ps, keys[x := key])) == Braces(Expand(ps, keys)) + Count(ps, x)
  {
    if ps != [] {
      ExpandBraces(ps[1..], keys, x, key);
      Counts(Rewrite(ps[0], keys), Expand(ps[1..], keys), x);
      Counts(Rewrite(ps[0], keys[x := key]), Expand(ps[1..], keys[x := key]), x);
      if ps[0] == Hole(x) {
        CountFilled(key, x);
        assert Rewrite(ps[0], keys) == [ps[0]] + [];
      }
    }
  }

  /** Rewriting one by one never rewrites fewer placeholders than rewriting all at once. */
  lemma {:induction false} AtLeast(title: char -> char, ps: seq<Piece>, names: seq<string>, x: string)
    requires Distinct(names)
    ensures Braces(Rewritten(title, ps, names)) >= Braces(Expand(ps, Keys(title, names)))
    ensures x !in names ==> Count(Rewritten(title, ps, names), x) >= Count(ps, x)
  {
    if names == [] {
      ExpandNothing(ps);
      assert Keys(title, names) == map[];
    } else {
      var n := |names| - 1;
      var before, last, key := names[..n], names[n], Title(title, names[n]);
      assert names == before + [last] && last !in before;
      AtLeast(title, ps, before, x);
      AtLeast(title, ps, before, last);
      ExpandCounts(Rewritten(title, ps, before), last, key, x);
      KeysSnoc(title, before, last);
      ExpandBraces(ps, Keys(title, before), last, key);
    }
  }

  /** A rewritten name leaves one more placeholder of the clashing name behind. */
  lemma {:induction false} Pending(title: char -> char, ps: seq<Piece>, names: seq<string>, i: nat, x: string)
    requires Distinct(names) && x !in names && i < |names|
    requires x == "." + Title(title, names[i]) && Count(ps, names[i]) > 0
    ensures Count(Rewritten(title, ps, names), x) > Count(ps, x)
  {
    var n := |names| - 1;
    var before, last, key := names[..n], names[n], Title(title, names[n]);
    assert names == before + [last] && last !in before;
    ExpandCounts(Rewritten(title, ps, before), last, key, x);
    if i < n {
      Pending(title, ps, before, i, x);
    } else {
      AtLeast(title, ps, before, x);
      AtLeast(title, ps, before, last);
    }
  }

  /** A clash costs a brace. */
  lemma {:induction false} Surplus(title: char -> char, ps: seq<Piece>, names: seq<string>, i: nat, j: nat)
    requires Distinct(names) && i < j < |names|
    requires names[j] == "." + Title(title, names[i]) && Count(ps, names[i]) > 0
    ensures Braces(Rewritten(title, ps, names)) > Braces(Expand(ps, Keys(title, names)))
  {
    var n := |names| - 1;
    var before, last, key := names[..n], names[n], Title(title, names[n]);
    assert names == before + [last] && last !in before;
    ExpandCounts(Rewritten(title, ps, before), last, key, last);
    KeysSnoc(title, before, last);
    ExpandBraces(ps, Keys(title, before), last, key);
    if j < n {
      Surplus(title, ps, before, i, j);
      AtLeast(title, ps, before, last);
    } else {
      Pending(title, ps, before, i, last);
      AtLeast(title, ps, before, last);
    }
  }

  // ---- Rewritten pieces are canonical too

  lemma {:induction false} ExpandCloses(ps: seq<Piece>, keys: map<string, string>, seen: bool)
    ensures Closes(Expand(ps, keys), seen) <==> Closes(ps, seen)
  {
    if ps != [] && ps[0].Lit? {
      assert Expand(ps, keys)[1..] == Expand(ps[1..], keys);
      if NameChar(ps[0].c) { ExpandCloses(ps[1..], keys, true); }
    } else if ps != [] && ps[0].name in keys {
      assert Expand(ps, keys)[0] == Lit('{');
    }
  }

  lemma {:induction false} ExpandCanonical(ps: seq<Piece>, keys: map<string, string>)
    requires Canonical(ps) && forall k | k in keys :: IsName("." + keys[k])
    ensures Canonical(Expand(ps, keys))
  {
    if ps != [] {
      ExpandCanonical(ps[1..], keys);
      var rest := Expand(ps[1..], keys);
      if ps[0].Hole? && ps[0].name in keys {
        FilledCanonical(keys[ps[0].name], rest);
      } else {
        assert ([ps[0]] + rest)[1..] == rest;
        ExpandCloses(ps[1..], keys, false);
      }
    }
  }

  lemma FilledCanonical(key: string, rest: seq<Piece>)
    requires IsName("." + key) && Canonical(rest)
    ensures Canonical(Filled(key) + rest)
  {
    var a := [Lit('}')] + rest;
    assert a[1..] == rest && Canonical(a);
    var b := [Hole("." + key)] + a;
    assert b[1..] == a && Canonical(b);
    assert (Filled(key) + rest)[1..] == b;
  }

  // ---- The text

  /** The pattern after the replacements for `names`, in their order. */
  function RewrittenText(title: char -> char, s: string, names: seq<string>): string {
    if names == [] then s
    else
      var n := |names| - 1;
      ReplaceAll(RewrittenText(title, s, names[..n]), "{" + names[n] + "}", "{{." + Title(title, names[n]) + "}}")
  }

  /** The text after replacing each `{name}` by `{{.key}}`, one name after the other. */
  function Rekeyed(s: string, names: seq<string>, keys: seq<string>): string
    requires |names| == |keys|
  {
    if names == [] then s
    else
      var n := |names| - 1;
      ReplaceAll(Rekeyed(s, names[..n], keys[..n]), "{" + names[n] + "}", "{{." + keys[n] + "}}")
  }

  lemma {:induction false} RekeyedTitles(title: char -> char, s: string, names: seq<string>, keys: seq<string>)
    requires |names| == |keys| && forall i | 0 <= i < |names| :: keys[i] == Title(title, names[i])
    ensures Rekeyed(s, names, keys) == RewrittenText(title, s, names)
  {
    if names != [] { RekeyedTitles(title, s, names[..|names| - 1], keys[..|names| - 1]); }
  }

  /** For instance. */
  lemma IdRewritten(title: char -> char)
    requires title('i') == 'I'
    ensures Parse("/{id}") == [Lit('/'), Hole("id")]
    ensures RewrittenText(title, "/{id}", ["id"]) == "/{{.Id}}"
  {
    hide Parse, ReplaceAll, IsName, RewrittenText, Title, Opaque;
    var key, v := "{" + "id" + "}", "{{." + "Id" + "}}";
    IdIsName(title);
    ParseHole("id", "");
    ParseSlash("{id}");
    ParseEmpty();
    assert key + "" == "{id}" && "/" + "{id}" == "/{id}";
    PassOver("/", "{id}", key, v);
    ReplaceHere("", key, v);
    ReplaceEmpty(key, v);
    assert v + "" == v;
  }

  lemma IdIsName(title: char -> char)
    requires title('i') == 'I'
    ensures IsName("id") && Opaque("/")
    ensures RewrittenText(title, "/{id}", ["id"]) == ReplaceAll("/{id}", "{" + "id" + "}", "{{." + "Id" + "}}")
  {
    hide ReplaceAll;
    assert Title(title, "id") == "Id" && ["id"][..0] == [];
    assert RewrittenText(title, "/{id}", []) == "/{id}";
  }

  lemma ReplaceEmpty(key: string, v: string)
    requires key != ""
    ensures ReplaceAll("", key, v) == ""
  {
  }

  predicate AllNames(names: seq<string>) {
    forall i | 0 <= i < |names| :: IsName(names[i])
  }

  lemma TitleName(title: char -> char, name: string)
    requires KeepsNames(title) && IsName(name)
    ensures IsName("." + Title(title, name))
  {
    hide NameChar;
    assert NameChar('.') by { DotIsName(); }
    var t := "." + Title(title, name);
    forall i | 0 <= i < |t|
      ensures NameChar(t[i])
    {
      if i == 1 { assert NameChar(name[0]); }
      if i > 1 { assert t[i] == name[i - 1]; }
    }
  }

  lemma DotIsName()
    ensures NameChar('.')
  {
  }

  lemma {:induction false} RewritesText(title: char -> char, s: string, names: seq<string>)
    requires KeepsNames(title) && AllNames(names)
    ensures Canonical(Rewritten(title, Parse(s), names))
    ensures RewrittenText(title, s, names) == Text(Rewritten(title, Parse(s), names))
  {
    hide KeepsNames, IsName;
    if names == [] {
      TextParse(s);
      ParseCanonical(s);
    } else {
      var n := |names| - 1;
      var ps := Rewritten(title, Parse(s), names[..n]);
      RewritesText(title, s, names[..n]);
      ReplaceExpands(ps, names[n], Title(title, names[n]));
      TitleName(title, names[n]);
      ExpandCanonical(ps, map[names[n] := Title(title, names[n])]);
    }
  }

  lemma KeysAreNames(title: char -> char, names: seq<string>)
    requires KeepsNames(title) && AllNames(names)
    ensures forall k | k in Keys(title, names) :: IsName("." + Keys(title, names)[k])
  {
    hide KeepsNames, IsName;
    forall k | k in Keys(title, names)
      ensures IsName("." + Keys(title, names)[k])
    {
      var i :| 0 <= i < |names| && names[i] == k;
      TitleName(title, k);
    }
  }

  /** All placeholders of the pattern rewritten at once. */
  function Simultaneous(title: char -> char, s: string, names: seq<string>): string {
    Text(Expand(Parse(s), Keys(title, names)))
  }

  predicate PlaceholdersOf(s: string, names: seq<string>) {
    forall i | 0 <= i < |names| :: Count(Parse(s), names[i]) > 0
  }

  lemma {:induction false} CountedName(ps: seq<Piece>, name: string)
    requires Canonical(ps) && Count(ps, name) > 0
    ensures IsName(name)
  {
    if ps[0] != Hole(name) { CountedName(ps[1..], name); }
  }

  /**
    Replacing the placeholders one name after the other gives what replacing them all at once would give if
    and only if no placeholder is a dot followed by the key of an earlier one.
   */
  lemma RewriteIff(title: char -> char, s: string, names: seq<string>)
    requires KeepsNames(title) && Distinct(names) && PlaceholdersOf(s, names)
    ensures RewrittenText(title, s, names) == Simultaneous(title, s, names) <==> NoClash(title, names)
  {
    hide KeepsNames, Canonical;
    var ps := Parse(s);
    ParseCanonical(s);
    forall i | 0 <= i < |names|
      ensures IsName(names[i])
    {
      CountedName(ps, names[i]);
    }
    RewritesText(title, s, names);
    if NoClash(title, names) {
      NoClashSimultaneous(title, ps, names);
    } else {
      var i, j :| 0 <= i < j < |names| && names[j] == "." + Title(title, names[i]);
      Surplus(title, ps, names, i, j);
      KeysAreNames(title, names);
      ExpandCanonical(ps, Keys(title, names));
      ParseText(Expand(ps, Keys(title, names)));
      ParseText(Rewritten(title, ps, names));
    }
  }

  // ---- A pattern that clashes

  /** A path of two placeholders, `/{x}{y}`. */
  function TwoPlaceholders(x: string, y: string): string {
    "/" + ("{" + x + "}" + ("{" + y + "}" + ""))
  }

  lemma ParseSlash(rest: string)
    ensures Parse("/" + rest) == [Lit('/')] + Parse(rest)
  {
    assert ("/" + rest)[1..] == rest;
  }

  lemma ParseTwo(x: string, y: string)
    requires IsName(x) && IsName(y)
    ensures Parse(TwoPlaceholders(x, y)) == [Lit('/'), Hole(x), Hole(y)]
  {
    hide Parse, IsName, Begins;
    ParseEmpty();
    ParseHole(y, "");
    ParseHole(x, "{" + y + "}" + "");
    ParseSlash("{" + x + "}" + ("{" + y + "}" + ""));
  }

  lemma ParseEmpty()
    ensures Parse("") == []
  {
  }

  lemma CountTwo(x: string, y: string)
    ensures Count([Lit('/'), Hole(x), Hole(y)], x) > 0 && Count([Lit('/'), Hole(x), Hole(y)], y) > 0
  {
    var ps := [Lit('/'), Hole(x), Hole(y)];
    assert ps[1..] == [Hole(x), Hole(y)] && ps[1..][1..] == [Hole(y)];
    assert Count([Hole(y)], y) == 1;
    assert Count(ps[1..], x) >= 1 && Count(ps[1..], y) >= 1;
  }

  /** Whenever `x` comes first, its replacement contains the placeholder of a dot and its own key. */
  lemma TwoClash(title: char -> char, x: string, y: string)
    requires KeepsNames(title) && IsName(x) && y == "." + Title(title, x)
    ensures RewrittenText(title, TwoPlaceholders(x, y), [x, y]) != Simultaneous(title, TwoPlaceholders(x, y), [x, y])
  {
    TitleName(title, x);
    assert |y| == |x| + 1;
    hide IsName, KeepsNames, Parse, Count, Simultaneous, RewrittenText, TwoPlaceholders;
    ParseTwo(x, y);
    CountTwo(x, y);
    var names := [x, y];
    assert names[1] == "." + Title(title, names[0]);
    RewriteIff(title, TwoPlaceholders(x, y), names);
  }

  // ---- What a placeholder is, without taking the text apart

  /** How often `{name}` stands in a text. */
  function Occurrences(s: string, name: string): nat {
    if s == "" then 0 else (if "{" + name + "}" <= s then 1 else 0) + Occurrences(s[1..], name)
  }

  /** Taking a pattern apart finds each placeholder as often as it stands in the text. */
  lemma {:induction false} CountOccurrences(ps: seq<Piece>, name: string)
    requires Canonical(ps) && IsName(name)
    ensures Count(ps, name) == Occurrences(Text(ps), name)
  {
    hide IsName, Occurrences;
    if ps == [] {
      NoOccurrence(name);
    } else {
      CountOccurrences(ps[1..], name);
      if ps[0] != Hole(name) { NotHere(ps, name); }
      OccursFirst(ps[0], Text(ps[1..]), name);
    }
  }

  lemma NoOccurrence(name: string)
    ensures Occurrences("", name) == 0
  {
  }

  lemma OccursFirst(p: Piece, rest: string, name: string)
    requires p.Hole? ==> IsName(p.name)
    requires p != Hole(name) ==> !("{" + name + "}" <= Show(p) + rest)
    ensures Occurrences(Show(p) + rest, name) == (if p == Hole(name) then 1 else 0) + Occurrences(rest, name)
  {
    if p.Hole? {
      var tail := p.name + "}";
      OpaqueName(p.name);
      ShowHole(p);
      hide *;
      Reassociate("{", p.name, "}");
      Reassociate("{", tail, rest);
      OccursHead('{', tail + rest, name);
      InsideNone(tail, rest, name);
      if p == Hole(name) { PrefixOf(Show(p), rest); }
    } else {
      OccursHead(p.c, rest, name);
    }
  }

  lemma PrefixOf(a: string, b: string)
    ensures a <= a + b
  {
  }

  lemma OccursHead(c: char, tail: string, name: string)
    ensures Occurrences([c] + tail, name) == (if "{" + name + "}" <= [c] + tail then 1 else 0) + Occurrences(tail, name)
  {
    assert ([c] + tail)[1..] == tail;
  }

  lemma {:induction false} InsideNone(a: string, s: string, name: string)
    requires Opaque(a)
    ensures Occurrences(a + s, name) == Occurrences(s, name)
  {
    if a == "" {
      assert a + s == s;
    } else {
      var key := "{" + name + "}";
      assert (a + s)[1..] == a[1..] + s && (a + s)[0] != key[0];
      InsideNone(a[1..], s, name);
    }
  }
}
