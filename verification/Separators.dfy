/** Texts put together with separators between them, any characters of a chosen set. */
module Separators {
  import opened Replacing
  import opened Seqs

  predicate Apart(s: string, seps: set<char>) {
    forall i | 0 <= i < |s| :: s[i] !in seps
  }

  /** The parts with the separators `between` them. */
  function Joined(parts: seq<string>, between: string): string
    requires |parts| == |between| + 1
  {
    if between == "" then parts[0] else parts[0] + ([between[0]] + Joined(parts[1..], between[1..]))
  }

  // ---- Counting separators

  /** The number of separators. Replacing never loses one, so equal paths are equal segment by segment. */
  function Marks(s: string, seps: set<char>): nat {
    if s == "" then 0 else (if s[0] in seps then 1 else 0) + Marks(s[1..], seps)
  }

  lemma {:induction false} MarksConcat(a: string, b: string, seps: set<char>)
    ensures Marks(a + b, seps) == Marks(a, seps) + Marks(b, seps)
  {
    if a == "" {
      assert a + b == b;
    } else {
      assert (a + b)[1..] == a[1..] + b;
      MarksConcat(a[1..], b, seps);
    }
  }

  lemma {:induction false} NoMarks(s: string, seps: set<char>)
    requires Apart(s, seps)
    ensures Marks(s, seps) == 0
  {
    if s != "" { NoMarks(s[1..], seps); }
  }

  lemma {:induction false} ReplaceMarks(s: string, key: string, v: string, seps: set<char>)
    requires key != "" && Apart(key, seps)
    ensures Marks(ReplaceAll(s, key, v), seps) >= Marks(s, seps)
  {
    if key <= s {
      ReplaceMarks(s[|key|..], key, v, seps);
      MarksConcat(v, ReplaceAll(s[|key|..], key, v), seps);
      MarksConcat(key, s[|key|..], seps);
      NoMarks(key, seps);
      assert s == key + s[|key|..];
    } else if s != "" {
      ReplaceMarks(s[1..], key, v, seps);
      MarksConcat([s[0]], ReplaceAll(s[1..], key, v), seps);
      MarksConcat([s[0]], s[1..], seps);
      assert s == [s[0]] + s[1..];
    }
  }

  function Total(parts: seq<string>, seps: set<char>): nat {
    if parts == [] then 0 else Marks(parts[0], seps) + Total(parts[1..], seps)
  }

  lemma {:induction false} JoinedMarks(parts: seq<string>, between: string, seps: set<char>)
    requires |parts| == |between| + 1 && forall i | 0 <= i < |between| :: between[i] in seps
    ensures Marks(Joined(parts, between), seps) == Total(parts, seps) + |between|
  {
    hide Marks;
    if between == "" {
      assert Total(parts[1..], seps) == 0;
    } else {
      JoinedMarks(parts[1..], between[1..], seps);
      MarksConcat(parts[0], [between[0]] + Joined(parts[1..], between[1..]), seps);
      MarksConcat([between[0]], Joined(parts[1..], between[1..]), seps);
      OneMark(between[0], seps);
    }
  }

  lemma OneMark(c: char, seps: set<char>)
    requires c in seps
    ensures Marks([c], seps) == 1
  {
    assert [c][1..] == "";
  }

  lemma {:induction false} TotalsEqual(xs: seq<string>, ys: seq<string>, seps: set<char>)
    requires |xs| == |ys| && forall i | 0 <= i < |xs| :: Marks(xs[i], seps) >= Marks(ys[i], seps)
    ensures Total(xs, seps) >= Total(ys, seps)
    ensures Total(xs, seps) == Total(ys, seps) ==> forall i | 0 <= i < |xs| :: Marks(xs[i], seps) == Marks(ys[i], seps)
  {
    hide Marks;
    if xs != [] { TotalsEqual(xs[1..], ys[1..], seps); }
  }

  lemma FirstSegment(a: string, b: string, c: char, s: string, t: string, seps: set<char>)
    requires a + ([c] + s) == b + ([c] + t) && c in seps && Marks(a, seps) == Marks(b, seps)
    ensures a == b && s == t
  {
    if |a| < |b| { LongerHasMore(a, b, c, s, t, seps); }
    if |b| < |a| { LongerHasMore(b, a, c, t, s, seps); }
    assert a == (a + ([c] + s))[..|a|] && b == (b + ([c] + t))[..|b|];
    CancelPrefix(a, [c] + s, [c] + t);
    CancelPrefix([c], s, t);
  }

  lemma LongerHasMore(a: string, b: string, c: char, s: string, t: string, seps: set<char>)
    requires a + ([c] + s) == b + ([c] + t) && c in seps && |a| < |b|
    ensures Marks(b, seps) > Marks(a, seps)
  {
    var u := a + ([c] + s);
    var rest := b[|a| + 1..];
    assert b == u[..|b|] && a == u[..|a|] && u[|a|] == c;
    assert b == a + ([c] + rest);
    MarksConcat(a, [c] + rest, seps);
    MarksConcat([c], rest, seps);
    OneMark(c, seps);
  }

  lemma {:induction false} SameSegments(xs: seq<string>, ys: seq<string>, between: string, seps: set<char>)
    requires |xs| == |ys| == |between| + 1 && Joined(xs, between) == Joined(ys, between)
    requires forall i | 0 <= i < |between| :: between[i] in seps
    requires forall i | 0 <= i < |xs| :: Marks(xs[i], seps) == Marks(ys[i], seps)
    ensures xs == ys
  {
    hide Marks;
    if between != "" {
      FirstSegment(xs[0], ys[0], between[0], Joined(xs[1..], between[1..]), Joined(ys[1..], between[1..]), seps);
      SameSegments(xs[1..], ys[1..], between[1..], seps);
    }
    assert xs == [xs[0]] + xs[1..] && ys == [ys[0]] + ys[1..];
  }
}
