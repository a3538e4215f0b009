/** Checking the placeholders of a backend URL pattern against the parameters of its endpoint. */
module UrlMappings {
  import opened Placeholders
  import opened Replacing
  import opened Seqs
  import opened Sorting
  import opened Visits

  // ---- Sorted sets of strings

  predicate Increasing(s: seq<string>) {
    forall i, j | 0 <= i < j < |s| :: StringLess(s[i], s[j])
  }

  lemma {:induction false} OnceEach(s: seq<string>, x: string)
    requires Increasing(s)
    ensures multiset(s)[x] == if x in Elements(s) then 1 else 0
  {
    if s != [] {
      var n := |s| - 1;
      var before := s[..n];
      OnceEach(before, x);
      assert s == before + [s[n]];
      if s[n] in Elements(before) {
        var i :| 0 <= i < n && before[i] == s[n];
        assert StringLess(s[i], s[n]);
        StringLessTotal(s[n], s[n]);
      }
      ElementsSnoc(before, s[n]);
    }
  }

  /** There is one way to list a set in order. */
  lemma IncreasingUnique(s: seq<string>, t: seq<string>)
    requires Increasing(s) && Increasing(t) && Elements(s) == Elements(t)
    ensures s == t
  {
    forall x
      ensures multiset(s)[x] == multiset(t)[x]
    {
      OnceEach(s, x);
      OnceEach(t, x);
    }
    assert multiset(s) == multiset(t);
    StringLessOrder();
    IncreasingSorted(s);
    IncreasingSorted(t);
    SortedUnique(StringLess, s, t);
  }

  lemma IncreasingSorted(s: seq<string>)
    requires Increasing(s)
    ensures Sorted(StringLess, s)
  {
    forall i, j | 0 <= i < j < |s|
      ensures !StringLess(s[j], s[i])
    {
      StringLessTotal(s[i], s[j]);
    }
  }

  lemma IncreasingDistinct(s: seq<string>)
    requires Increasing(s)
    ensures Distinct(s)
  {
    forall i, j | 0 <= i < j < |s|
      ensures s[i] != s[j]
    {
      StringLessTotal(s[i], s[j]);
    }
  }

  // ---- Distinct placeholders, in place

  /** How many of the names are to be input parameters. */
  function Required(sequential: string -> bool, s: seq<string>): nat {
    if s == [] then 0
    else Required(sequential, s[..|s| - 1]) + if sequential(s[|s| - 1]) then 0 else 1
  }

  /** They are counted as a set. */
  lemma {:induction false} RequiredCount(sequential: string -> bool, s: seq<string>)
    requires Distinct(s)
    ensures Required(sequential, s) == |set x | x in s && !sequential(x)|
  {
    if s != [] {
      var n := |s| - 1;
      RequiredCount(sequential, s[..n]);
      var before := set x | x in s[..n] && !sequential(x);
      assert s[n] !in before;
      OneMore(sequential, s[..n], s[n]);
      assert s == s[..n] + [s[n]];
    }
  }

  lemma OneMore(sequential: string -> bool, before: seq<string>, last: string)
    ensures (set x | x in before + [last] && !sequential(x))
         == (set x | x in before && !sequential(x)) + if sequential(last) then {} else {last}
  {
  }

  lemma FirstsCounted(sequential: string -> bool, outputs: seq<string>)
    requires Increasing(outputs) && outputs != []
    ensures Required(sequential, outputs[..|outputs| - 1])
         == |set x | x in outputs[..|outputs| - 1] && !sequential(x)|
  {
    IncreasingDistinct(outputs);
    RequiredCount(sequential, outputs[..|outputs| - 1]);
  }

  /**
    Sorts the list and moves its distinct elements to the front; `n` says how many there are. The size
    counts those that are not sequential, and always leaves the last one out.
   */
  method UniqueOutput(output: array<string>, sequential: string -> bool) returns (n: nat, outputSetSize: nat)
    modifies output
    ensures n <= output.Length && Increasing(output[..n]) && Elements(output[..n]) == Elements(old(output[..]))
    ensures n == 0 <==> output.Length == 0
    ensures n == 0 ==> outputSetSize == 0
    ensures n > 0 ==> outputSetSize == |set x | x in output[..n - 1] && !sequential(x)|
  {
    hide *;
    StringLessOrder();
    SortSlice(output, StringLess);
    ghost var s := output[..];
    SameElements(s, old(output[..]));
    n, outputSetSize := 0, 0;
    if output.Length == 0 {
      NothingLeft(output[..0], s);
      return;
    }
    var j := 0;
    ghost var kept := [s[0]];
    DedupedStart(sequential, s);
    for i := 1 to output.Length
      invariant 0 <= j < i && |s| == output.Length
      invariant output[i..] == s[i..] && output[..j + 1] == kept
      invariant Deduped(s, i, kept) && outputSetSize == Required(sequential, kept[..j])
    {
      DedupedLast(s, i, kept);
      assert output[i] == output[i..][0] == s[i] && output[j] == output[..j + 1][j] == s[i - 1];
      assert output[i + 1..] == output[i..][1..];
      DedupedStep(sequential, s, i, kept);
      if output[j] == output[i] {
        continue;
      }
      if !sequential(output[j]) { outputSetSize := outputSetSize + 1; }
      j := j + 1;
      output[j] := output[i];
      assert output[..j] == kept && output[..j + 1] == kept + [s[i]];
      kept := kept + [s[i]];
      assert kept[..j] == output[..j];
    }
    n := j + 1;
    DedupedEnd(s, kept);
    assert kept[..j] == output[..j];
    FirstsCounted(sequential, kept);
  }

  /** The list with only its first elements looked at, and their distinct ones kept. */
  ghost predicate Deduped(s: seq<string>, i: nat, kept: seq<string>) {
    && 0 < i <= |s| && Sorted(StringLess, s)
    && kept != [] && kept[|kept| - 1] == s[i - 1]
    && Increasing(kept) && Elements(kept) == Elements(s[..i])
  }

  lemma NothingLeft(kept: seq<string>, s: seq<string>)
    requires kept == s == []
    ensures Increasing(kept) && Elements(kept) == Elements(s)
  {
  }

  lemma DedupedStart(sequential: string -> bool, s: seq<string>)
    requires s != [] && Sorted(StringLess, s)
    ensures Deduped(s, 1, [s[0]]) && Required(sequential, [s[0]][..0]) == 0
  {
    assert s[..1] == [s[0]];
  }

  lemma DedupedLast(s: seq<string>, i: nat, kept: seq<string>)
    requires Deduped(s, i, kept)
    ensures kept != [] && 0 < i <= |s| && kept[|kept| - 1] == s[i - 1]
  {
  }

  lemma DedupedStep(sequential: string -> bool, s: seq<string>, i: nat, kept: seq<string>)
    requires Deduped(s, i, kept) && i < |s|
    ensures kept != []
    ensures s[i] == s[i - 1] ==> Deduped(s, i + 1, kept)
    ensures s[i] != s[i - 1] ==> Deduped(s, i + 1, kept + [s[i]])
    ensures Required(sequential, kept) == Required(sequential, kept[..|kept| - 1]) + if sequential(s[i - 1]) then 0 else 1
  {
    hide Sorted, StringLess, Increasing, Elements, Required;
    RequiredSnoc(sequential, kept);
    assert s[..i + 1] == s[..i] + [s[i]];
    ElementsSnoc(s[..i], s[i]);
    ElementsSnoc(kept, s[i]);
    if s[i] == s[i - 1] {
      InElements(s[..i], i - 1);
    } else {
      IncreasingSnoc(kept, s, i);
    }
  }

  lemma RequiredSnoc(sequential: string -> bool, s: seq<string>)
    requires s != []
    ensures Required(sequential, s) == Required(sequential, s[..|s| - 1]) + if sequential(s[|s| - 1]) then 0 else 1
  {
  }

  lemma DedupedEnd(s: seq<string>, kept: seq<string>)
    requires Deduped(s, |s|, kept)
    ensures kept != [] && Increasing(kept) && Elements(kept) == Elements(s)
  {
    assert s[..|s|] == s;
  }

  lemma SameElements(s: seq<string>, t: seq<string>)
    requires multiset(s) == multiset(t)
    ensures Elements(s) == Elements(t)
  {
    forall x
      ensures x in Elements(s) <==> x in Elements(t)
    {
      assert x in Elements(s) <==> x in multiset(s);
      assert x in Elements(t) <==> x in multiset(t);
    }
  }

  /** The next different element of a sorted list continues its increasing part. */
  lemma IncreasingSnoc(before: seq<string>, s: seq<string>, i: nat)
    requires Increasing(before) && Sorted(StringLess, s) && 0 < i < |s|
    requires before != [] && before[|before| - 1] == s[i - 1] != s[i]
    ensures Increasing(before + [s[i]])
  {
    hide StringLess;
    StringLessTotal(s[i - 1], s[i]);
    assert !StringLess(s[i], s[i - 1]);
    forall k | 0 <= k < |before|
      ensures StringLess(before[k], s[i])
    {
      if k < |before| - 1 { StringLessTrans(before[k], s[i - 1], s[i]); }
    }
  }

  // ---- Sets to slices

  /** The keys of a set, in whatever order they come, then sorted. */
  method FromSetToSortedSlice(keys: set<string>) returns (res: seq<string>)
    ensures Increasing(res) && Elements(res) == keys
  {
    hide *;
    var list := [];
    var rest := keys;
    NothingLeft([], []);
    NoElements();
    while rest != {}
      invariant rest <= keys && Elements(list) == keys - rest && Distinct(list)
      decreases rest
    {
      var element :| element in rest;
      DistinctSnoc(list, element);
      ElementsSnoc(list, element);
      rest := rest - {element};
      list := list + [element];
    }
    var a := new string[|list|](i requires 0 <= i < |list| => list[i]);
    assert a[..] == list;
    StringLessOrder();
    SortSlice(a, StringLess);
    SameElements(a[..], list);
    SortedDistinct(a[..], list);
    res := a[..];
  }

  lemma NoElements()
    ensures Elements([]) == {} && Distinct<string>([])
  {
  }

  lemma DistinctSnoc(s: seq<string>, x: string)
    requires Distinct(s) && x !in Elements(s)
    ensures Distinct(s + [x])
  {
  }

  lemma SortedDistinct(s: seq<string>, t: seq<string>)
    requires Sorted(StringLess, s) && Distinct(t) && multiset(s) == multiset(t)
    ensures Increasing(s)
  {
    forall i, j | 0 <= i < j < |s|
      ensures StringLess(s[i], s[j])
    {
      if s[i] == s[j] { Twice(s, i, j); }
      AtMostOnce(t, s[i]);
      StringLessTotal(s[i], s[j]);
    }
  }

  lemma Twice(s: seq<string>, i: nat, j: nat)
    requires i < j < |s| && s[i] == s[j]
    ensures multiset(s)[s[i]] >= 2
  {
    assert s == s[..j] + s[j..] && s[..j][i] == s[i] && s[j..][0] == s[i];
    assert s[i] in multiset(s[..j]) && s[i] in multiset(s[j..]);
    assert multiset(s) == multiset(s[..j]) + multiset(s[j..]);
  }

  lemma {:induction false} AtMostOnce(t: seq<string>, x: string)
    requires Distinct(t)
    ensures multiset(t)[x] <= 1
  {
    if t != [] {
      var n := |t| - 1;
      AtMostOnce(t[..n], x);
      assert t == t[..n] + [t[n]];
      if x == t[n] { assert x !in t[..n]; }
    }
  }

  // ---- The check

  /** The names of the placeholders of a pattern, from left to right. */
  function Names(ps: seq<Piece>): seq<string> {
    if ps == [] then []
    else (if ps[0].Hole? then [ps[0].name] else []) + Names(ps[1..])
  }

  lemma {:induction false} NamesCounted(ps: seq<Piece>, x: string)
    ensures x in Elements(Names(ps)) <==> Count(ps, x) > 0
  {
    if ps != [] {
      NamesCounted(ps[1..], x);
      var rest := Names(ps[1..]);
      if ps[0].Hole? {
        assert Names(ps) == [ps[0].name] + rest;
        ElementsCons(ps[0].name, rest);
      } else {
        assert Names(ps) == rest;
      }
    } else {
      NoElements();
    }
  }

  lemma ElementsCons(x: string, s: seq<string>)
    ensures Elements([x] + s) == {x} + Elements(s)
  {
    var t := [x] + s;
    forall y | y in Elements(s)
      ensures y in Elements(t)
    {
      var i :| 0 <= i < |s| && s[i] == y;
      assert t[i + 1] == y;
    }
    assert t[0] == x;
  }

  lemma {:induction false} NamesTimes(ps: seq<Piece>, x: string)
    ensures multiset(Names(ps))[x] == Count(ps, x)
  {
    if ps != [] {
      NamesTimes(ps[1..], x);
      var rest := Names(ps[1..]);
      if ps[0].Hole? { assert Names(ps) == [ps[0].name] + rest; } else { assert Names(ps) == rest; }
    }
  }

  lemma {:induction false} NamesAreNames(ps: seq<Piece>)
    requires Canonical(ps)
    ensures AllNames(Names(ps))
  {
    hide IsName;
    if ps != [] { NamesAreNames(ps[1..]); }
  }

  /** The names extracted are those that stand between braces in the text, each as often as it does. */
  lemma NamesOccur(subject: string)
    ensures AllNames(Names(Parse(subject)))
    ensures forall x | IsName(x) :: multiset(Names(Parse(subject)))[x] == Occurrences(subject, x)
  {
    hide IsName, Canonical, Occurrences, Parse, Names;
    ParseCanonical(subject);
    NamesAreNames(Parse(subject));
    forall x | IsName(x)
      ensures multiset(Names(Parse(subject)))[x] == Occurrences(subject, x)
    {
      NamesTimes(Parse(subject), x);
      CountOccurrences(Parse(subject), x);
      TextParse(subject);
    }
  }

  /** The first submatch of every match of the placeholder expression, leftmost first, in a fresh slice. */
  method ExtractPlaceHolders(subject: string) returns (keys: array<string>)
    ensures fresh(keys) && keys[..] == Names(Parse(subject))
    ensures AllNames(keys[..]) && forall x | IsName(x) :: multiset(keys[..])[x] == Occurrences(subject, x)
  {
    var matches := Names(Parse(subject));
    keys := new string[|matches|];
    for k := 0 to |matches|
      invariant keys[..k] == matches[..k]
    {
      keys[k] := matches[k];
    }
    hide *;
    assert keys[..] == matches;
    NamesOccur(subject);
  }

  /** A name of the given kind, or an input parameter of the endpoint. */
  predicate Defined(sequential: string -> bool, inputParams: set<string>, name: string) {
    sequential(name) || name in inputParams
  }

  /** What the accepted pattern becomes: all placeholders filled in at once, unless two of them clash. */
  lemma AcceptedPattern(title: char -> char, pattern: string, outputs: seq<string>)
    requires KeepsNames(title)
    requires Increasing(outputs) && Elements(outputs) == Elements(Names(Parse(pattern)))
    ensures RewrittenText(title, pattern, outputs) == Simultaneous(title, pattern, outputs) <==> NoClash(title, outputs)
  {
    hide *;
    IncreasingDistinct(outputs);
    AllCounted(pattern, outputs);
    RewriteIff(title, pattern, outputs);
  }

  lemma AllCounted(pattern: string, outputs: seq<string>)
    requires Elements(outputs) == Elements(Names(Parse(pattern)))
    ensures PlaceholdersOf(pattern, outputs)
  {
    forall i | 0 <= i < |outputs|
      ensures Count(Parse(pattern), outputs[i]) > 0
    {
      InElements(outputs, i);
      NamesCounted(Parse(pattern), outputs[i]);
    }
  }

  lemma NamesTwo(x: string, y: string)
    ensures Names([Lit('/'), Hole(x), Hole(y)]) == [x, y]
  {
    var ps := [Lit('/'), Hole(x), Hole(y)];
    assert ps[1..] == [Hole(x), Hole(y)] && ps[1..][1..] == [Hole(y)];
    assert Names([Hole(y)]) == [y];
    assert Names(ps[1..]) == [x] + [y];
  }

  /** `/{.}{..}` is accepted where `.` and `..` are input parameters, and comes out wrong. */
  lemma DotsClash(title: char -> char, sequential: string -> bool)
    requires KeepsNames(title) && title('.') == '.'
    ensures var pattern, outputs := TwoPlaceholders(".", ".."), [".", ".."];
            && Increasing(outputs) && Elements(outputs) == Elements(Names(Parse(pattern)))
            && (forall x | x in Elements(outputs) :: Defined(sequential, {".", ".."}, x))
            && RewrittenText(title, pattern, outputs) != Simultaneous(title, pattern, outputs)
  {
    DotIsName();
    assert IsName(".") && IsName("..");
    assert "."[1..] == "" && ".."[1..] == "." && StringLess(".", "..");
    assert ".." == "." + Title(title, ".");
    hide IsName, KeepsNames, Parse, RewrittenText, Simultaneous, TwoPlaceholders, Title, StringLess;
    TwoClash(title, ".", "..");
    ParseTwo(".", "..");
    NamesTwo(".", "..");
  }

  datatype Outcome =
    | Accepted
    | WrongNumberOfParams(inputParams: seq<string>, outputParams: seq<string>)
    | UndefinedOutputParam(param: string, inputParams: seq<string>, outputParams: seq<string>)

  /** The first `k` placeholders are defined, and have been turned into keys. */
  ghost predicate Mapped(
    urlPattern: string, urlKeys: seq<string>, k: nat,
    outputs: seq<string>, pattern: string, title: char -> char, sequential: string -> bool, inputParams: set<string>)
  {
    && k <= |outputs|
    && urlKeys == seq(k, i requires 0 <= i < k => Title(title, outputs[i]))
    && urlPattern == RewrittenText(title, pattern, outputs[..k])
    && forall i | 0 <= i < k :: Defined(sequential, inputParams, outputs[i])
  }

  lemma MappedStep(
    urlPattern: string, urlKeys: seq<string>, k: nat,
    outputs: seq<string>, pattern: string, title: char -> char, sequential: string -> bool, inputParams: set<string>)
    requires Mapped(urlPattern, urlKeys, k, outputs, pattern, title, sequential, inputParams) && k < |outputs|
    requires sequential(outputs[k]) || outputs[k] in inputParams
    ensures var key := Title(title, outputs[k]);
            Mapped(ReplaceAll(urlPattern, "{" + outputs[k] + "}", "{{." + key + "}}"), urlKeys + [key], k + 1,
                   outputs, pattern, title, sequential, inputParams)
  {
    assert outputs[..k + 1][..k] == outputs[..k];
  }

  lemma MappedEnd(
    urlPattern: string, urlKeys: seq<string>,
    outputs: seq<string>, pattern: string, title: char -> char, sequential: string -> bool, inputParams: set<string>)
    requires Mapped(urlPattern, urlKeys, |outputs|, outputs, pattern, title, sequential, inputParams)
    ensures urlPattern == RewrittenText(title, pattern, outputs)
  {
    assert outputs[..|outputs|] == outputs;
  }

  lemma NamesStay(s: seq<string>, t: seq<string>)
    requires AllNames(t) && Elements(s) == Elements(t)
    ensures AllNames(s)
  {
    hide IsName;
    forall i | 0 <= i < |s|
      ensures IsName(s[i])
    {
      InElements(s, i);
      var j :| 0 <= j < |t| && t[j] == s[i];
    }
  }

  /** What has been reached, character by character. */
  lemma MappedReads(
    urlPattern: string, urlKeys: seq<string>, k: nat,
    outputs: seq<string>, pattern: string, title: char -> char, sequential: string -> bool, inputParams: set<string>)
    requires Mapped(urlPattern, urlKeys, k, outputs, pattern, title, sequential, inputParams) && AllNames(outputs)
    ensures |urlKeys| == k <= |outputs|
    ensures forall i | 0 <= i < k ::
              && |urlKeys[i]| == |outputs[i]| > 0
              && urlKeys[i][0] == title(outputs[i][0]) && urlKeys[i][1..] == outputs[i][1..]
    ensures urlPattern == Rekeyed(pattern, outputs[..k], urlKeys)
    ensures forall i | 0 <= i < k :: sequential(outputs[i]) || outputs[i] in inputParams
  {
    RekeyedTitles(title, pattern, outputs[..k], urlKeys);
  }

  lemma MappedStart(outputs: seq<string>, pattern: string, title: char -> char, sequential: string -> bool,
          inputParams: set<string>)
    ensures Mapped(pattern, [], 0, outputs, pattern, title, sequential, inputParams)
  {
  }

  lemma {:induction false} DistinctSize(s: seq<string>)
    requires Distinct(s)
    ensures |Elements(s)| == |s|
  {
    if s != [] {
      var n := |s| - 1;
      DistinctSize(s[..n]);
      assert s == s[..n] + [s[n]];
      ElementsSnoc(s[..n], s[n]);
    } else {
      NoElements();
    }
  }

  /** The names that are not sequential, all but the last name being looked at. */
  ghost predicate RequiredNames(sequential: string -> bool, outputs: seq<string>, required: set<string>) {
    forall x :: x in required <==> exists i | 0 <= i < |outputs| - 1 :: outputs[i] == x && !sequential(x)
  }

  lemma AllButLast(sequential: string -> bool, outputs: seq<string>, firsts: seq<string>, size: nat)
    returns (required: set<string>)
    requires firsts == if outputs == [] then [] else outputs[..|outputs| - 1]
    requires size == if outputs == [] then 0 else |set x | x in firsts && !sequential(x)|
    ensures RequiredNames(sequential, outputs, required) && |required| == size
  {
    required := set x | x in firsts && !sequential(x);
    if outputs == [] { assert required == {}; }
  }

  lemma {:induction false} SubsetSize<T>(s: set<T>, t: set<T>)
    requires s <= t
    ensures |s| <= |t|
    decreases s
  {
    if x :| x in s {
      SubsetSize(s - {x}, t - {x});
      assert |t - {x}| == |t| - 1;
    }
  }

  /** The count in the first check is right to refuse: it exceeds the inputs only if some name is undefined. */
  lemma SomeUndefined(sequential: string -> bool, inputParams: set<string>, s: seq<string>, required: set<string>)
    requires RequiredNames(sequential, s, required)
    requires |required| > |inputParams|
    ensures exists x | x in s :: !sequential(x) && x !in inputParams
  {
    if required <= inputParams { SubsetSize(required, inputParams); }
    var x :| x in required && x !in inputParams;
  }

  class Backend {
    var urlPattern: string
    var urlKeys: seq<string>

    constructor (urlPattern: string)
      ensures this.urlPattern == urlPattern
    {
      this.urlPattern := urlPattern;
      urlKeys := [];
    }

    /** Turns the placeholders into keys, one after the other, up to the first one that is undefined. */
    method RewriteOutputs(outputs: seq<string>, title: char -> char, sequential: string -> bool, inputParams: set<string>)
      returns (undefined: bool)
      requires AllNames(outputs)
      modifies this
      ensures |urlKeys| <= |outputs| && (undefined <==> |urlKeys| < |outputs|)
      ensures undefined ==> !sequential(outputs[|urlKeys|]) && outputs[|urlKeys|] !in inputParams
      ensures forall i | 0 <= i < |urlKeys| ::
                && (sequential(outputs[i]) || outputs[i] in inputParams)
                && |urlKeys[i]| == |outputs[i]| > 0
                && urlKeys[i][0] == title(outputs[i][0]) && urlKeys[i][1..] == outputs[i][1..]
      ensures urlPattern == Rekeyed(old(urlPattern), outputs[..|urlKeys|], urlKeys)
      ensures !undefined ==> urlPattern == RewrittenText(title, old(urlPattern), outputs)
    {
      hide *;
      urlKeys := [];
      MappedStart(outputs, urlPattern, title, sequential, inputParams);
      for k := 0 to |outputs|
        invariant Mapped(urlPattern, urlKeys, k, outputs, old(urlPattern), title, sequential, inputParams)
      {
        var output := outputs[k];
        if !sequential(output) {
          if output !in inputParams {
            MappedReads(urlPattern, urlKeys, k, outputs, old(urlPattern), title, sequential, inputParams);
            return true;
          }
        }
        var key := Title(title, output);
        MappedStep(urlPattern, urlKeys, k, outputs, old(urlPattern), title, sequential, inputParams);
        urlPattern := ReplaceAll(urlPattern, "{" + output + "}", "{{." + key + "}}");
        urlKeys := urlKeys + [key];
      }
      MappedReads(urlPattern, urlKeys, |outputs|, outputs, old(urlPattern), title, sequential, inputParams);
      MappedEnd(urlPattern, urlKeys, outputs, old(urlPattern), title, sequential, inputParams);
      undefined := false;
    }

    method InitURLMappings(inputParams: set<string>, clean: string -> string, title: char -> char,
            sequential: string -> bool)
      returns (outcome: Outcome, ghost outputs: seq<string>, ghost required: set<string>)
      modifies this
      ensures Increasing(outputs) && Elements(outputs) == Elements(Names(Parse(clean(old(urlPattern)))))
      ensures outcome.Accepted? <==> forall x | x in outputs :: sequential(x) || x in inputParams
      ensures outcome.Accepted? ==> |urlKeys| == |outputs|
      ensures !outcome.WrongNumberOfParams? ==>
        && |urlKeys| <= |outputs|
        && (forall i | 0 <= i < |urlKeys| ::
              && |urlKeys[i]| == |outputs[i]| > 0
              && urlKeys[i][0] == title(outputs[i][0]) && urlKeys[i][1..] == outputs[i][1..])
        && urlPattern == Rekeyed(clean(old(urlPattern)), outputs[..|urlKeys|], urlKeys)
      ensures outcome.Accepted? ==> urlPattern == RewrittenText(title, clean(old(urlPattern)), outputs)
      ensures !outcome.Accepted? ==> outcome.outputParams == outputs
      ensures !outcome.Accepted? ==> Increasing(outcome.inputParams) && Elements(outcome.inputParams) == inputParams
      ensures RequiredNames(sequential, outputs, required)
      ensures outcome.WrongNumberOfParams? <==> |required| > |inputParams|
      ensures outcome.WrongNumberOfParams? ==> urlPattern == clean(old(urlPattern)) && urlKeys == old(urlKeys)
      ensures outcome.UndefinedOutputParam? ==>
        && |urlKeys| < |outputs| && outcome.param == outputs[|urlKeys|]
        && !sequential(outcome.param) && outcome.param !in inputParams
        && forall i | 0 <= i < |urlKeys| :: sequential(outputs[i]) || outputs[i] in inputParams
    {
      hide *;
      urlPattern := clean(urlPattern);
      ghost var pattern := urlPattern;
      var list := ExtractPlaceHolders(urlPattern);
      var n, outputSetSize := UniqueOutput(list, sequential);
      var outputParams := list[..n];
      outputs := outputParams;
      required := AllButLast(sequential, outputs, list[..if n > 0 then n - 1 else 0], outputSetSize);
      var ip := FromSetToSortedSlice(inputParams);
      assert |ip| == |inputParams| by { IncreasingDistinct(ip); DistinctSize(ip); }
      NamesStay(outputs, Names(Parse(pattern)));
      if outputSetSize > |ip| {
        SomeUndefined(sequential, inputParams, outputs, required);
        outcome := WrongNumberOfParams(ip, outputParams);
        return;
      }
      var undefined := RewriteOutputs(outputParams, title, sequential, inputParams);
      outcome := if undefined then UndefinedOutputParam(outputParams[|urlKeys|], ip, outputParams) else Accepted;
    }
  }
}
