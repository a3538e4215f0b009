/** Texts in parts: dotted paths, as `strings.Split(s, ".")` takes them apart, and lists joined by commas. */
module Paths {
  import opened Json
  import opened Seqs

  /** The parts of a text between the occurrences of `sep`. */
  function SplitAt(s: string, sep: char): (parts: seq<string>)
    ensures parts != []
  {
    if s == "" then [""]
    else
      var rest := SplitAt(s[1..], sep);
      if s[0] == sep then [""] + rest else [[s[0]] + rest[0]] + rest[1..]
  }

  function Split(s: string): (parts: Path)
    ensures parts != []
  {
    SplitAt(s, '.')
  }

  function Join(parts: seq<string>, sep: char): string
    requires parts != []
  {
    if |parts| == 1 then parts[0] else parts[0] + [sep] + Join(parts[1..], sep)
  }

  lemma JoinCons(first: string, rest: seq<string>, sep: char)
    requires rest != []
    ensures Join([first] + rest, sep) == first + [sep] + Join(rest, sep)
  {
    assert ([first] + rest)[1..] == rest;
  }

  lemma JoinFirst(parts: seq<string>, c: char, sep: char)
    requires parts != []
    ensures Join([[c] + parts[0]] + parts[1..], sep) == [c] + Join(parts, sep)
  {
    var first, rest := [c] + parts[0], parts[1..];
    if rest == [] {
      assert parts == [parts[0]];
    } else {
      JoinCons(first, rest, sep);
      Reassociate([c], parts[0], [sep] + Join(rest, sep));
      Reassociate(first, [sep], Join(rest, sep));
      Reassociate(parts[0], [sep], Join(rest, sep));
    }
  }

  /** Splitting loses nothing, and leaves no separator inside a part. */
  lemma {:induction false} SplitJoin(s: string, sep: char)
    ensures Join(SplitAt(s, sep), sep) == s
    ensures forall part <- SplitAt(s, sep) :: sep !in part
  {
    if s != "" {
      SplitJoin(s[1..], sep);
      var rest := SplitAt(s[1..], sep);
      if s[0] == sep {
        JoinCons("", rest, sep);
        assert s == [sep] + s[1..];
      } else {
        JoinFirst(rest, s[0], sep);
        assert s == [s[0]] + s[1..];
      }
    }
  }

  /** The parts of a dotted path have no dots, and joined by dots they are the path. */
  lemma SplitDots(s: string)
    ensures Join(Split(s), '.') == s
    ensures forall key <- Split(s) :: '.' !in key
  {
    SplitJoin(s, '.');
  }

  /** The first of them is what stands before the first dot. */
  lemma FirstPart(s: string)
    ensures '.' !in Split(s)[0] && Split(s)[0] <= s
    ensures Split(s)[0] == s || (|Split(s)[0]| < |s| && s[|Split(s)[0]|] == '.')
  {
    SplitDots(s);
  }

  lemma {:induction false} SplitFirst(first: string, s: string, sep: char)
    requires sep !in first
    ensures SplitAt(first + [sep] + s, sep) == [first] + SplitAt(s, sep)
  {
    var t := first + [sep] + s;
    if first == "" {
      assert t[1..] == s;
    } else {
      SplitFirst(first[1..], s, sep);
      assert t[1..] == first[1..] + [sep] + s && [first[0]] + first[1..] == first;
    }
  }

  /** Parts without the separator are found again in their joined text. */
  lemma {:induction false} JoinSplit(parts: seq<string>, sep: char)
    requires parts != [] && forall part <- parts :: sep !in part
    ensures SplitAt(Join(parts, sep), sep) == parts
  {
    if |parts| == 1 {
      SplitNothing(parts[0], sep);
    } else {
      JoinSplit(parts[1..], sep);
      SplitFirst(parts[0], Join(parts[1..], sep), sep);
    }
  }

  lemma {:induction false} SplitNothing(s: string, sep: char)
    requires sep !in s
    ensures SplitAt(s, sep) == [s]
  {
    if s != "" {
      SplitNothing(s[1..], sep);
      assert [s[0]] + s[1..] == s;
    }
  }

  lemma {:induction false} JoinSnoc(parts: seq<string>, last: string, sep: char)
    requires parts != []
    ensures Join(parts + [last], sep) == Join(parts, sep) + [sep] + last
  {
    if |parts| == 1 {
      assert (parts + [last])[1..] == [last];
    } else {
      JoinSnoc(parts[1..], last, sep);
      assert (parts + [last])[1..] == parts[1..] + [last];
    }
  }
}
