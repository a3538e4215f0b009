/**
  From the pattern of a backend to the path of a request: placeholders `{name}` are rewritten to `{{.Name}}`
  when the configuration is read, and filled with parameters when a request comes.
 */
module BackendPaths {
  import opened Visits
  import P = Placeholders
  import S = SegmentedPaths
  import T = Template
  import U = UrlMappings

  /** The pieces of the rewritten pattern. */
  function Rewritten(title: char -> char, ps: seq<P.Piece>): (ts: seq<T.Piece>)
    ensures |ts| == |ps|
    ensures forall i | 0 <= i < |ps| ::
      ts[i] == if ps[i].Hole? then T.Hole(P.Title(title, ps[i].name)) else T.Literal([ps[i].c])
  {
    seq(|ps|, i requires 0 <= i < |ps| =>
      if ps[i].Hole? then T.Hole(P.Title(title, ps[i].name)) else T.Literal([ps[i].c]))
  }

  /** The original pattern with every placeholder replaced by its parameter at once. */
  function Substituted(title: char -> char, ps: seq<P.Piece>, params: T.Params): string
    requires Provided(title, ps, params)
  {
    if ps == [] then ""
    else
      assert Provided(title, ps[1..], params);
      (if ps[0].Hole? then params[P.Title(title, ps[0].name)] else [ps[0].c]) + Substituted(title, ps[1..], params)
  }

  /** There is a parameter for every placeholder. */
  predicate Provided(title: char -> char, ps: seq<P.Piece>, params: T.Params) {
    forall i | 0 <= i < |ps| && ps[i].Hole? :: P.Title(title, ps[i].name) in params
  }

  /** No opening brace but those of placeholders. */
  predicate Braceless(ps: seq<P.Piece>) {
    forall i | 0 <= i < |ps| :: ps[i] != P.Lit('{')
  }

  predicate Named(ps: seq<P.Piece>, names: seq<string>) {
    forall i | 0 <= i < |ps| && ps[i].Hole? :: ps[i].name in names
  }

  lemma {:induction false} RewrittenText(title: char -> char, ps: seq<P.Piece>, names: seq<string>)
    requires Named(ps, names)
    ensures P.Text(P.Expand(ps, P.Keys(title, names))) == T.Text(Rewritten(title, ps))
  {
    if ps != [] {
      var keys := P.Keys(title, names);
      RewrittenText(title, ps[1..], names);
      assert Rewritten(title, ps)[1..] == Rewritten(title, ps[1..]);
      P.TextConcat(P.Rewrite(ps[0], keys), P.Expand(ps[1..], keys));
      if ps[0].Hole? {
        P.FilledText(P.Title(title, ps[0].name));
      } else {
        assert P.Text([ps[0]]) == P.Show(ps[0]);
      }
    }
  }

  lemma {:induction false} FilledText(title: char -> char, ps: seq<P.Piece>, params: T.Params)
    requires Provided(title, ps, params)
    ensures T.Text(T.FillAll(Rewritten(title, ps), params)) == Substituted(title, ps, params)
  {
    if ps != [] {
      FilledText(title, ps[1..], params);
      assert T.FillAll(Rewritten(title, ps), params)[1..] == T.FillAll(Rewritten(title, ps[1..]), params);
    }
  }

  lemma TitlePlain(title: char -> char, name: string)
    requires P.KeepsNames(title) && P.IsName(name)
    ensures T.Plain(P.Title(title, name))
  {
    P.TitleName(title, name);
    var t := "." + P.Title(title, name);
    P.BraceEnds();
    hide P.KeepsNames, P.NameChar;
    forall i | 0 <= i < |P.Title(title, name)|
      ensures P.Title(title, name)[i] != '{' && P.Title(title, name)[i] != '}'
    {
      assert P.NameChar(t[i + 1]);
    }
  }

  lemma RewrittenProper(title: char -> char, ps: seq<P.Piece>)
    requires P.KeepsNames(title) && P.Canonical(ps) && Braceless(ps)
    ensures T.Proper(Rewritten(title, ps))
  {
    hide P.KeepsNames, P.Canonical;
    forall i | 0 <= i < |ps| && ps[i].Hole?
      ensures T.Plain(P.Title(title, ps[i].name))
    {
      CanonicalNames(ps, i);
      TitlePlain(title, ps[i].name);
    }
  }

  lemma {:induction false} CanonicalNames(ps: seq<P.Piece>, i: nat)
    requires P.Canonical(ps) && i < |ps| && ps[i].Hole?
    ensures P.IsName(ps[i].name)
  {
    if i > 0 { CanonicalNames(ps[1..], i - 1); }
  }

  lemma {:induction false} AllNamed(ps: seq<P.Piece>, names: seq<string>)
    requires Elements(U.Names(ps)) == Elements(names)
    ensures Named(ps, names)
  {
    forall i | 0 <= i < |ps| && ps[i].Hole?
      ensures ps[i].name in names
    {
      Counted(ps, i);
      U.NamesCounted(ps, ps[i].name);
      assert ps[i].name in Elements(names);
    }
  }

  lemma {:induction false} Counted(ps: seq<P.Piece>, i: nat)
    requires i < |ps| && ps[i].Hole?
    ensures P.Count(ps, ps[i].name) > 0
  {
    if i > 0 { Counted(ps[1..], i - 1); }
  }

  /**
    An accepted pattern without clashes or stray braces, filled with a safe value for each of its keys: in
    every order of the parameters the path is the original pattern with all placeholders substituted at once.
   */
  lemma PatternToPath(title: char -> char, pattern: string, outputs: seq<string>, params: T.Params, order: seq<string>)
    requires P.KeepsNames(title)
    requires U.Increasing(outputs) && Elements(outputs) == Elements(U.Names(P.Parse(pattern)))
    requires P.NoClash(title, outputs) && Braceless(P.Parse(pattern))
    requires T.Safe(params) && Provided(title, P.Parse(pattern), params) && Orders(order, params.Keys)
    ensures T.Known(order, params)
    ensures T.Replaced(P.RewrittenText(title, pattern, outputs), params, order)
         == Substituted(title, P.Parse(pattern), params)
  {
    hide *;
    var ps := P.Parse(pattern);
    U.AcceptedPattern(title, pattern, outputs);
    AllNamed(ps, outputs);
    RewrittenText(title, ps, outputs);
    P.ParseCanonical(pattern);
    RewrittenProper(title, ps);
    T.AnyOrder(Rewritten(title, ps), params, order);
    FilledText(title, ps, params);
    SimultaneousMeans(title, pattern, outputs);
  }

  lemma SimultaneousMeans(title: char -> char, pattern: string, outputs: seq<string>)
    ensures P.Simultaneous(title, pattern, outputs) == P.Text(P.Expand(P.Parse(pattern), P.Keys(title, outputs)))
  {
  }

  /** For instance: `/{id}` where `id` is 7 becomes `/7`. */
  lemma IdPath(title: char -> char, params: T.Params)
    requires title('i') == 'I' && params == map["Id" := "7"]
    ensures T.Known(["Id"], params)
    ensures T.Replaced(P.RewrittenText(title, "/{id}", ["id"]), params, ["Id"]) == "/7"
  {
    hide P.RewrittenText;
    P.IdRewritten(title);
    assert T.Key("Id") == "{{.Id}}" && T.Plain("Id") && ["Id"][..0] == [];
    assert "/" + "{{.Id}}" == "/{{.Id}}" && "/" + "7" == "/7";
    assert T.Replaced("/{{.Id}}", params, []) == "/{{.Id}}";
    S.OneReplacement("Id", "Id", "7");
  }
}
