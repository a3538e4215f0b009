/** Filling the placeholders of a backend path by one textual replacement per parameter. */
module Template {
  import opened Replacing
  import opened Seqs
  import opened Visits

  function Key(name: string): (key: string)
    ensures |key| == |name| + 5
  {
    "{{." + name + "}}"
  }

  type Params = map<string, string>

  predicate Known(order: seq<string>, params: Params) {
    forall i | 0 <= i < |order| :: order[i] in params
  }

  /** The pattern after the replacements of `order`. */
  function Replaced(pattern: string, params: Params, order: seq<string>): string
    requires Known(order, params)
  {
    if order == [] then pattern
    else
      var n := |order| - 1;
      assert Known(order[..n], params);
      ReplaceAll(Replaced(pattern, params, order[..n]), Key(order[n]), params[order[n]])
  }

  class Request {
    var path: string
    var params: Params

    constructor (params: Params)
      ensures this.params == params
    {
      this.params := params;
      path := "";
    }

    method GeneratePath(urlPattern: string) returns (ghost order: seq<string>)
      modifies this`path
      ensures Orders(order, params.Keys) && Known(order, params)
      ensures path == Replaced(urlPattern, params, order)
    {
      order := [];
      if |params| == 0 {
        path := urlPattern;
        return;
      }
      var buff := urlPattern;
      var rest := params.Keys;
      while rest != {}
        invariant rest <= params.Keys && Orders(order, params.Keys - rest) && Known(order, params)
        invariant buff == Replaced(urlPattern, params, order)
        decreases rest
      {
        var k :| k in rest;
        OrdersSnoc(order, params.Keys - rest, k);
        assert params.Keys - (rest - {k}) == (params.Keys - rest) + {k};
        assert (order + [k])[..|order|] == order;
        rest := rest - {k};
        var v := params[k];
        var key := "{{." + k + "}}";
        buff := ReplaceAll(buff, key, v);
        order := order + [k];
      }
      assert params.Keys - rest == params.Keys;
      path := buff;
    }
  }

  // ---- Patterns

  /** A pattern is literal text with named holes. */
  datatype Piece = Literal(text: string) | Hole(name: string)

  function Text(pieces: seq<Piece>): string {
    if pieces == [] then ""
    else (if pieces[0].Hole? then Key(pieces[0].name) else pieces[0].text) + Text(pieces[1..])
  }

  predicate Plain(s: string) {
    forall i | 0 <= i < |s| :: s[i] != '{' && s[i] != '}'
  }

  predicate Proper(pieces: seq<Piece>) {
    forall i | 0 <= i < |pieces| :: if pieces[i].Hole? then Plain(pieces[i].name) else Opaque(pieces[i].text)
  }

  /** One parameter put into its holes. */
  function Fill(pieces: seq<Piece>, name: string, v: string): (r: seq<Piece>)
    ensures |r| == |pieces|
    ensures forall i | 0 <= i < |r| :: r[i] == if pieces[i] == Hole(name) then Literal(v) else pieces[i]
  {
    seq(|pieces|, i requires 0 <= i < |pieces| => if pieces[i] == Hole(name) then Literal(v) else pieces[i])
  }

  /** Simultaneous substitution: all parameters put into their holes at once. */
  function FillAll(pieces: seq<Piece>, params: Params): (r: seq<Piece>)
    ensures |r| == |pieces|
    ensures forall i | 0 <= i < |r| ::
      r[i] == if pieces[i].Hole? && pieces[i].name in params then Literal(params[pieces[i].name]) else pieces[i]
  {
    seq(|pieces|, i requires 0 <= i < |pieces| =>
      if pieces[i].Hole? && pieces[i].name in params then Literal(params[pieces[i].name]) else pieces[i])
  }

  // ---- One replacement

  /** One placeholder begins with another only if they have the same name. */
  lemma KeysApart(name: string, other: string, s: string)
    requires Plain(name) && Plain(other) && Key(name) <= Key(other) + s
    ensures name == other
  {
    var t := Key(other) + s;
    assert forall i | 0 <= i < |name| :: name[i] == Key(name)[i + 3] == t[i + 3];
    assert forall i | 0 <= i < |other| :: other[i] == Key(other)[i + 3] == t[i + 3];
    assert t[|name| + 3] == Key(name)[|name| + 3] == '}';
    assert t[|other| + 3] == Key(other)[|other| + 3] == '}';
    assert |name| == |other|;
  }

  /** The hole of another name is passed over. */
  lemma PassHole(other: string, s: string, name: string, v: string)
    requires Plain(name) && Plain(other) && name != other
    ensures ReplaceAll(Key(other) + s, Key(name), v) == Key(other) + ReplaceAll(s, Key(name), v)
  {
    var key, t := Key(name), Key(other) + s;
    if key <= t { KeysApart(name, other, s); }
    var tail := "." + other + "}}";
    var t2 := tail + s;
    var t1 := "{" + t2;
    assert t == "{" + t1 && key[1] == '{' && t1[1] == '.';
    OpaqueTail(other);
    PassOver(tail, s, key, v);
    SkipFirst(t, key, v);
    SkipFirst(t1, key, v);
    hide *;
    assert t[1..] == t1 && t1[1..] == t2;
    KeyShape(other);
    Reassociate("{", tail, ReplaceAll(s, key, v));
    Reassociate("{", "{" + tail, ReplaceAll(s, key, v));
  }

  lemma KeyShape(name: string)
    ensures Key(name) == "{" + ("{" + ("." + name + "}}"))
  {
  }

  lemma OpaqueTail(name: string)
    requires Plain(name)
    ensures Opaque("." + name + "}}")
  {
  }

  lemma SkipFirst(s: string, key: string, v: string)
    requires s != "" && key != "" && !(key <= s)
    ensures ReplaceAll(s, key, v) == [s[0]] + ReplaceAll(s[1..], key, v)
  {
  }

  /** One replacement fills exactly the holes of that name. */
  lemma {:induction false} ReplaceFills(pieces: seq<Piece>, name: string, v: string)
    requires Proper(pieces) && Plain(name)
    ensures ReplaceAll(Text(pieces), Key(name), v) == Text(Fill(pieces, name, v))
  {
    if pieces != [] {
      var p, rest := pieces[0], pieces[1..];
      ReplaceFills(rest, name, v);
      assert Fill(pieces, name, v)[1..] == Fill(rest, name, v);
      if p.Literal? {
        PassOver(p.text, Text(rest), Key(name), v);
      } else if p.name == name {
        assert (Key(name) + Text(rest))[|Key(name)|..] == Text(rest);
      } else {
        PassHole(p.name, Text(rest), name, v);
      }
    }
  }

  // ---- All replacements

  /** What may be substituted: names without braces, values in which no placeholder begins. */
  predicate Safe(params: Params) {
    forall k | k in params :: Plain(k) && Opaque(params[k])
  }

  function Restrict(params: Params, names: seq<string>): Params {
    map k | k in params && k in names :: params[k]
  }

  lemma {:induction false} ReplacedFills(pieces: seq<Piece>, params: Params, order: seq<string>)
    requires Proper(pieces) && Safe(params) && Known(order, params)
    ensures Replaced(Text(pieces), params, order) == Text(FillAll(pieces, Restrict(params, order)))
  {
    if order == [] {
      assert FillAll(pieces, Restrict(params, order)) == pieces;
    } else {
      var n := |order| - 1;
      var before, k := order[..n], order[n];
      ReplacedFills(pieces, params, before);
      var filled := FillAll(pieces, Restrict(params, before));
      ReplaceFills(filled, k, params[k]);
      assert order == before + [k];
      assert Fill(filled, k, params[k]) == FillAll(pieces, Restrict(params, order));
    }
  }

  lemma OrderedIsKnown(params: Params, order: seq<string>)
    requires Orders(order, params.Keys)
    ensures Known(order, params)
  {
    forall i | 0 <= i < |order|
      ensures order[i] in params
    {
      InElements(order, i);
    }
  }

  /** Whatever the order, the path is the pattern with all parameters substituted at once. */
  lemma AnyOrder(pieces: seq<Piece>, params: Params, order: seq<string>)
    requires Proper(pieces) && Safe(params) && Orders(order, params.Keys)
    ensures Known(order, params)
    ensures Replaced(Text(pieces), params, order) == Text(FillAll(pieces, params))
  {
    OrderedIsKnown(params, order);
    ReplacedFills(pieces, params, order);
    assert Restrict(params, order) == params;
  }

  // ---- When values hold placeholders themselves

  /** No other replacement changes the value of `name`. */
  ghost predicate Stable(params: Params, name: string)
    requires name in params
  {
    forall other | other in params && other != name :: ReplaceAll(params[name], Key(other), params[other]) == params[name]
  }

  lemma ReplaceAlone(name: string, other: string, v: string)
    requires Plain(name) && Plain(other)
    ensures ReplaceAll(Key(name), Key(other), v) == if other == name then v else Key(name)
  {
    assert Key(name) + "" == Key(name) && Key(name)[|Key(name)|..] == "";
    if other != name { PassHole(name, "", other, v); }
  }

  lemma {:induction false} HoleWaits(params: Params, name: string, order: seq<string>)
    requires Known(order, params) && Plain(name) && forall k | k in params :: Plain(k)
    requires forall i | 0 <= i < |order| :: order[i] != name
    ensures Replaced(Key(name), params, order) == Key(name)
  {
    if order != [] {
      var n := |order| - 1;
      HoleWaits(params, name, order[..n]);
      ReplaceAlone(name, order[n], params[order[n]]);
    }
  }

  lemma {:induction false} ValueStays(params: Params, name: string, order: seq<string>, at: nat)
    requires Known(order, params) && name in params && forall k | k in params :: Plain(k)
    requires Distinct(order)
    requires at < |order| && order[at] == name
    requires at == |order| - 1 || Stable(params, name)
    ensures Replaced(Key(name), params, order) == params[name]
  {
    var n := |order| - 1;
    if at == n {
      HoleWaits(params, name, order[..n]);
      ReplaceAlone(name, name, params[name]);
    } else {
      ValueStays(params, name, order[..n], at);
    }
  }
}
