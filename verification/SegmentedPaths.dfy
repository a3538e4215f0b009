/**
  Paths with at most one placeholder between two separators, the ordinary kind: exactly when filling them one
  parameter at a time gives simultaneous substitution. A separator is any character of a chosen set that
  occurs in no placeholder, such as the ones of `/`, `?`, `&` and `=` that names do without.
 */
module SegmentedPaths {
  import opened Replacing
  import opened Separators
  import opened Seqs
  import opened Template
  import opened Visits

  // ---- Replacing in pieces of a text

  /** No occurrence of the key begins in `a` and ends past it. */
  ghost predicate NoneAcross(a: string, tail: string, key: string) {
    forall j | 0 <= j < |a| && key <= (a + tail)[j..] :: j + |key| <= |a|
  }

  /** An occurrence that does end past `a` shares its characters from there on with the tail. */
  lemma Across(a: string, tail: string, key: string, j: nat)
    requires j < |a| && key <= (a + tail)[j..]
    ensures var k := |a| - j;
            k < |key| ==> |key| - k <= |tail| && key[k] == tail[0] && key[|key| - 1] == tail[|key| - 1 - k]
  {
    var s := (a + tail)[j..];
    assert forall i | 0 <= i < |key| :: key[i] == s[i];
    assert forall i | |a| - j <= i < |s| :: s[i] == tail[i - (|a| - j)];
  }

  lemma AcrossTail(a: string, tail: string, key: string, k: nat)
    requires NoneAcross(a, tail, key) && k <= |a|
    ensures (a + tail)[k..] == a[k..] + tail && NoneAcross(a[k..], tail, key)
  {
    assert (a + tail)[k..] == a[k..] + tail;
    forall j | 0 <= j < |a[k..]| && key <= (a[k..] + tail)[j..]
      ensures j + |key| <= |a[k..]|
    {
      assert (a[k..] + tail)[j..] == (a + tail)[k + j..];
    }
  }

  lemma {:induction false} ReplaceConcat(a: string, tail: string, key: string, v: string)
    requires key != "" && NoneAcross(a, tail, key)
    ensures ReplaceAll(a + tail, key, v) == ReplaceAll(a, key, v) + ReplaceAll(tail, key, v)
    decreases |a|
  {
    if a == "" {
      assert a + tail == tail;
    } else {
      assert (a + tail)[0..] == a + tail;
      var k := if key <= a + tail then |key| else 1;
      AcrossTail(a, tail, key, k);
      ReplaceConcat(a[k..], tail, key, v);
      assert key <= a + tail <==> key <= a;
      var head := if key <= a then v else [a[0]];
      Reassociate(head, ReplaceAll(a[k..], key, v), ReplaceAll(tail, key, v));
    }
  }

  /** A separator keeps what is on its two sides apart. */
  lemma ReplaceBetween(a: string, c: char, b: string, key: string, v: string)
    requires key != "" && key[0] == '{' && c !in key
    ensures ReplaceAll(a + ([c] + b), key, v) == ReplaceAll(a, key, v) + ([c] + ReplaceAll(b, key, v))
  {
    var t := [c] + b;
    forall j | 0 <= j < |a| && key <= (a + t)[j..]
      ensures j + |key| <= |a|
    {
      Across(a, t, key, j);
    }
    ReplaceConcat(a, t, key, v);
    PassOver([c], b, key, v);
  }

  /** Plain text around a piece is left alone. */
  lemma ReplaceAround(pre: string, x: string, post: string, key: string, v: string)
    requires Plain(pre) && Plain(post) && key != "" && key[0] == '{' && key[|key| - 1] == '}'
    ensures ReplaceAll(pre + (x + post), key, v) == pre + (ReplaceAll(x, key, v) + post)
  {
    forall j | 0 <= j < |x| && key <= (x + post)[j..]
      ensures j + |key| <= |x|
    {
      Across(x, post, key, j);
    }
    ReplaceConcat(x, post, key, v);
    PassOver(post, "", key, v);
    assert post + "" == post && ReplaceAll("", key, v) == "";
    PassOver(pre, x + post, key, v);
  }

  // ---- The same for all replacements of an order

  /** The names are free of braces, and their placeholders of separators. */
  predicate Free(params: Params, seps: set<char>) {
    forall k | k in params :: Plain(k) && Apart(Key(k), seps)
  }

  predicate AllPlain(params: Params) {
    forall k | k in params :: Plain(k)
  }

  lemma FreeIsPlain(params: Params, seps: set<char>)
    requires Free(params, seps)
    ensures AllPlain(params)
  {
  }

  /** Braces and the dot aside, any characters that no name uses will do. */
  lemma FreeIff(params: Params, seps: set<char>)
    requires '{' !in seps && '}' !in seps && '.' !in seps
    ensures Free(params, seps) <==> AllPlain(params) && forall k | k in params :: Apart(k, seps)
  {
    forall k | k in params
      ensures Apart(Key(k), seps) <==> Apart(k, seps)
    {
      var key := Key(k);
      assert forall i | 0 <= i < |key| :: if 3 <= i < |k| + 3 then key[i] == k[i - 3] else key[i] !in seps;
      assert forall i | 0 <= i < |k| :: k[i] == key[i + 3];
    }
  }

  lemma KeyEnds(name: string)
    ensures Key(name)[0] == '{' && Key(name)[|Key(name)| - 1] == '}'
  {
  }

  lemma {:induction false} ReplacedBetween(a: string, c: char, b: string, params: Params, order: seq<string>,
                                           seps: set<char>)
    requires Free(params, seps) && c in seps && Known(order, params)
    ensures Replaced(a + ([c] + b), params, order) == Replaced(a, params, order) + ([c] + Replaced(b, params, order))
  {
    hide ReplaceAll, Key;
    if order != [] {
      var n := |order| - 1;
      ReplacedBetween(a, c, b, params, order[..n], seps);
      KeyEnds(order[n]);
      assert Apart(Key(order[n]), seps);
      ReplaceBetween(Replaced(a, params, order[..n]), c, Replaced(b, params, order[..n]), Key(order[n]), params[order[n]]);
    }
  }

  lemma {:induction false} ReplacedAround(pre: string, x: string, post: string, params: Params, order: seq<string>)
    requires Plain(pre) && Plain(post) && Known(order, params)
    ensures Replaced(pre + (x + post), params, order) == pre + (Replaced(x, params, order) + post)
  {
    hide ReplaceAll;
    if order != [] {
      var n := |order| - 1;
      ReplacedAround(pre, x, post, params, order[..n]);
      KeyEnds(order[n]);
      ReplaceAround(pre, Replaced(x, params, order[..n]), post, Key(order[n]), params[order[n]]);
    }
  }

  // ---- Segments

  /** What stands between two separators: plain text, around at most one placeholder. */
  datatype Segment = Fixed(text: string) | Variable(pre: string, name: string, post: string)

  predicate Simple(segment: Segment) {
    match segment
    case Fixed(text) => Plain(text)
    case Variable(pre, name, post) => Plain(pre) && Plain(name) && Plain(post)
  }

  predicate AllSimple(segments: seq<Segment>) {
    forall i | 0 <= i < |segments| :: Simple(segments[i])
  }

  /** A segment with `x` in the place of its placeholder. */
  function With(segment: Segment, x: string): string {
    match segment
    case Fixed(text) => text
    case Variable(pre, _, post) => pre + (x + post)
  }

  function SegmentText(segment: Segment): string {
    With(segment, if segment.Variable? then Key(segment.name) else "")
  }

  /** What simultaneous substitution makes of a segment. */
  function Substituted(segment: Segment, params: Params): string {
    if segment.Variable? && segment.name in params then With(segment, params[segment.name]) else SegmentText(segment)
  }

  function Texts(segments: seq<Segment>): (parts: seq<string>)
    ensures |parts| == |segments|
  {
    seq(|segments|, i requires 0 <= i < |segments| => SegmentText(segments[i]))
  }

  function Results(segments: seq<Segment>, params: Params, order: seq<string>): (parts: seq<string>)
    requires Known(order, params)
    ensures |parts| == |segments|
  {
    seq(|segments|, i requires 0 <= i < |segments| => Replaced(SegmentText(segments[i]), params, order))
  }

  function Expected(segments: seq<Segment>, params: Params): (parts: seq<string>)
    ensures |parts| == |segments|
  {
    seq(|segments|, i requires 0 <= i < |segments| => Substituted(segments[i], params))
  }

  /** The pattern has these segments, with separators between them that occur in no placeholder of `params`. */
  predicate Segmented(segments: seq<Segment>, between: string, params: Params, seps: set<char>) {
    && |segments| == |between| + 1 && AllSimple(segments)
    && (forall i | 0 <= i < |between| :: between[i] in seps)
    && Free(params, seps)
  }

  /** A path is filled segment by segment. */
  lemma {:induction false} PathBySegment(segments: seq<Segment>, between: string, params: Params, order: seq<string>,
                                         seps: set<char>)
    requires Segmented(segments, between, params, seps) && Known(order, params)
    ensures Replaced(Joined(Texts(segments), between), params, order)
         == Joined(Results(segments, params, order), between)
  {
    hide Replaced, SegmentText, Free, Simple;
    if between != "" {
      PathBySegment(segments[1..], between[1..], params, order, seps);
      assert Texts(segments)[1..] == Texts(segments[1..]);
      assert Results(segments, params, order)[1..] == Results(segments[1..], params, order);
      ReplacedBetween(SegmentText(segments[0]), between[0], Joined(Texts(segments[1..]), between[1..]), params, order, seps);
    }
  }

  lemma SegmentResult(segment: Segment, params: Params, order: seq<string>)
    requires Simple(segment) && Known(order, params)
    ensures segment.Fixed? ==> Replaced(SegmentText(segment), params, order) == SegmentText(segment)
    ensures segment.Variable? ==>
      Replaced(SegmentText(segment), params, order) == With(segment, Replaced(Key(segment.name), params, order))
  {
    hide Replaced, Key;
    match segment
    case Fixed(text) =>
      ReplacedAround(text, "", "", params, order);
      ReplacedNothing(params, order);
      assert text + ("" + "") == text;
    case Variable(pre, name, post) =>
      ReplacedAround(pre, Key(name), post, params, order);
  }

  lemma {:induction false} ReplacedNothing(params: Params, order: seq<string>)
    requires Known(order, params)
    ensures Replaced("", params, order) == ""
  {
    if order != [] { ReplacedNothing(params, order[..|order| - 1]); }
  }

  // ---- Separators are never lost

  lemma {:induction false} ValueGrows(params: Params, name: string, order: seq<string>, at: nat, seps: set<char>)
    requires Known(order, params) && name in params && Free(params, seps)
    requires Distinct(order)
    requires at < |order| && order[at] == name
    ensures Marks(Replaced(Key(name), params, order), seps) >= Marks(params[name], seps)
  {
    hide ReplaceAll, Marks;
    var n := |order| - 1;
    if at == n {
      ValueStays(params, name, order, at);
    } else {
      ValueGrows(params, name, order[..n], at, seps);
      ReplaceMarks(Replaced(Key(name), params, order[..n]), Key(order[n]), params[order[n]], seps);
    }
  }

  // ---- The law

  /** In this order the path becomes what simultaneous substitution makes of it. */
  ghost predicate Substituting(segments: seq<Segment>, between: string, params: Params, order: seq<string>)
    requires |segments| == |between| + 1
  {
    && Known(order, params)
    && Replaced(Joined(Texts(segments), between), params, order) == Joined(Expected(segments, params), between)
  }

  /** No value that goes into the path is changed by another replacement. */
  ghost predicate AllStable(segments: seq<Segment>, params: Params) {
    forall i | 0 <= i < |segments| && segments[i].Variable? && segments[i].name in params ::
      Stable(params, segments[i].name)
  }

  lemma StableResult(segment: Segment, params: Params, order: seq<string>)
    requires Simple(segment) && AllPlain(params) && Orders(order, params.Keys) && Known(order, params)
    requires segment.Variable? && segment.name in params ==> Stable(params, segment.name)
    ensures Replaced(SegmentText(segment), params, order) == Substituted(segment, params)
  {
    hide Replaced, Stable, ReplaceAll;
    SegmentResult(segment, params, order);
    if segment.Variable? {
      if segment.name in params {
        assert segment.name in Elements(order);
        var at :| 0 <= at < |order| && order[at] == segment.name;
        ValueStays(params, segment.name, order, at);
      } else {
        HoleWaits(params, segment.name, order);
      }
    }
  }

  /** In any order, no segment ends up with fewer separators than it should have. */
  lemma ResultMarks(segment: Segment, params: Params, order: seq<string>, seps: set<char>)
    requires Simple(segment) && Free(params, seps) && Orders(order, params.Keys) && Known(order, params)
    ensures Marks(Replaced(SegmentText(segment), params, order), seps) >= Marks(Substituted(segment, params), seps)
  {
    hide Replaced, Marks, ReplaceAll;
    SegmentResult(segment, params, order);
    if segment.Variable? {
      if segment.name in params {
        assert segment.name in Elements(order);
        var at :| 0 <= at < |order| && order[at] == segment.name;
        ValueGrows(params, segment.name, order, at, seps);
        WithMarks(segment, Replaced(Key(segment.name), params, order), seps);
        WithMarks(segment, params[segment.name], seps);
      } else {
        HoleWaits(params, segment.name, order);
      }
    }
  }

  lemma WithMarks(segment: Segment, x: string, seps: set<char>)
    requires segment.Variable?
    ensures Marks(With(segment, x), seps) == Marks(segment.pre, seps) + Marks(x, seps) + Marks(segment.post, seps)
  {
    MarksConcat(segment.pre, x + segment.post, seps);
    MarksConcat(x, segment.post, seps);
  }

  /** An order that shows that a value is not stable. */
  lemma UnstableOrder(params: Params, name: string) returns (order: seq<string>)
    requires name in params && AllPlain(params) && !Stable(params, name)
    ensures Orders(order, params.Keys) && Known(order, params)
    ensures Replaced(Key(name), params, order) != params[name]
  {
    var other :| other in params && other != name && ReplaceAll(params[name], Key(other), params[other]) != params[name];
    order := OrderEndingWith(params.Keys, name, other);
    OrderedIsKnown(params, order);
    var n := |order| - 1;
    ValueStays(params, name, order[..n], n - 1);
  }

  lemma UnstablePath(segments: seq<Segment>, between: string, params: Params, seps: set<char>, i: nat)
    requires Segmented(segments, between, params, seps)
    requires i < |segments| && segments[i].Variable? && segments[i].name in params
    requires !Stable(params, segments[i].name)
    ensures exists order | Orders(order, params.Keys) :: !Substituting(segments, between, params, order)
  {
    hide Replaced, Stable, Marks, ReplaceAll, Joined, Free, Simple;
    FreeIsPlain(params, seps);
    var order := UnstableOrder(params, segments[i].name);
    var xs, ys := Results(segments, params, order), Expected(segments, params);
    PathBySegment(segments, between, params, order, seps);
    if Joined(xs, between) == Joined(ys, between) {
      forall j | 0 <= j < |segments|
        ensures Marks(xs[j], seps) >= Marks(ys[j], seps)
      {
        ResultMarks(segments[j], params, order, seps);
      }
      TotalsEqual(xs, ys, seps);
      JoinedMarks(xs, between, seps);
      JoinedMarks(ys, between, seps);
      SameSegments(xs, ys, between, seps);
      assert xs[i] == ys[i];
      SegmentResult(segments[i], params, order);
      WithInjective(segments[i], Replaced(Key(segments[i].name), params, order), params[segments[i].name]);
    }
    assert !Substituting(segments, between, params, order);
  }

  lemma WithInjective(segment: Segment, x: string, y: string)
    requires segment.Variable? && With(segment, x) == With(segment, y)
    ensures x == y
  {
    CancelPrefix(segment.pre, x + segment.post, y + segment.post);
    assert |x + segment.post| == |y + segment.post|;
    assert x == (x + segment.post)[..|x|] && y == (y + segment.post)[..|y|];
  }

  /**
    A path with at most one placeholder between two separators is filled as by simultaneous substitution in
    every order of the parameters if and only if no value that goes into it is changed by the replacement
    of another parameter.
   */
  lemma PathIff(segments: seq<Segment>, between: string, params: Params, seps: set<char>)
    requires Segmented(segments, between, params, seps)
    ensures (forall order | Orders(order, params.Keys) :: Substituting(segments, between, params, order))
       <==> AllStable(segments, params)
  {
    hide Replaced, Stable, ReplaceAll, Joined, Free, Simple;
    FreeIsPlain(params, seps);
    if AllStable(segments, params) {
      forall order | Orders(order, params.Keys)
        ensures Substituting(segments, between, params, order)
      {
        OrderedIsKnown(params, order);
        PathBySegment(segments, between, params, order, seps);
        forall i | 0 <= i < |segments|
          ensures Results(segments, params, order)[i] == Expected(segments, params)[i]
        {
          StableResult(segments[i], params, order);
        }
        assert Results(segments, params, order) == Expected(segments, params);
      }
    } else {
      var i :| 0 <= i < |segments| && segments[i].Variable? && segments[i].name in params
               && !Stable(params, segments[i].name);
      UnstablePath(segments, between, params, seps, i);
    }
  }

  lemma TwoReplacements(pattern: string, params: Params, x: string, y: string)
    requires x in params && y in params
    ensures Known([x, y], params)
    ensures Replaced(pattern, params, [x, y])
         == ReplaceAll(ReplaceAll(pattern, Key(x), params[x]), Key(y), params[y])
  {
    hide ReplaceAll, Key;
    assert [x, y][..1] == [x] && [x][..0] == [];
    assert Replaced(pattern, params, [x]) == ReplaceAll(pattern, Key(x), params[x]);
  }

  lemma OneReplacement(name: string, other: string, v: string)
    requires Plain(name) && Plain(other)
    ensures ReplaceAll("/" + Key(name), Key(other), v) == "/" + if other == name then v else Key(name)
  {
    PassOver("/", Key(name), Key(other), v);
    ReplaceAlone(name, other, v);
  }

  lemma BothOrders(x: string, y: string)
    requires x != y
    ensures Orders([x, y], {x, y}) && Orders([y, x], {x, y})
  {
    ElementsSnoc([], x);
    ElementsSnoc([x], y);
    ElementsSnoc([], y);
    ElementsSnoc([y], x);
    assert [] + [x] == [x] && [x] + [y] == [x, y] && [] + [y] == [y] && [y] + [x] == [y, x];
    assert Elements([]) == {};
  }

  /** A value that is the other parameter's placeholder: the two orders give two paths. */
  lemma OrdersDisagree(x: string, y: string, v: string)
    requires Plain(x) && Plain(y) && x != y
    ensures var params: Params := map[x := Key(y), y := v];
            && Orders([x, y], params.Keys) && Orders([y, x], params.Keys)
            && Known([x, y], params) && Known([y, x], params)
            && Replaced("/" + Key(x), params, [x, y]) == "/" + v
            && Replaced("/" + Key(x), params, [y, x]) == "/" + Key(y)
  {
    var params: Params := map[x := Key(y), y := v];
    assert params.Keys == {x, y};
    hide Replaced, ReplaceAll, Key, Orders, Plain;
    BothOrders(x, y);
    TwoReplacements("/" + Key(x), params, x, y);
    TwoReplacements("/" + Key(x), params, y, x);
    OneReplacement(x, x, Key(y));
    OneReplacement(y, y, v);
    OneReplacement(x, y, v);
  }

  /** For instance `/{{.a}}` with `{{.b}}` for `a` and `x` for `b`. */
  lemma OrdersDiffer(params: Params)
    requires params == map["a" := "{{.b}}", "b" := "x"]
    ensures Known(["a", "b"], params) && Known(["b", "a"], params)
    ensures Replaced("/{{.a}}", params, ["a", "b"]) == "/x"
    ensures Replaced("/{{.a}}", params, ["b", "a"]) == "/{{.b}}"
  {
    assert Key("a") == "{{.a}}" && Key("b") == "{{.b}}" && Plain("a") && Plain("b") && "a" != "b";
    hide *;
    OrdersDisagree("a", "b", "x");
    assert "/" + "{{.a}}" == "/{{.a}}" && "/" + "{{.b}}" == "/{{.b}}" && "/" + "x" == "/x";
  }
}
