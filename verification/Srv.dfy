/**
  Service records and the host list made of them. Only the records of the lowest priority are used, as
  RFC 2782 ("The format of the SRV RR", Priority entry) asks; each host then appears as often as its
  compacted weight says.
 */
module Srv {
  import opened Weights
  import opened Compaction
  import opened Decimals
  import opened Seqs
  import opened Sorting

  datatype Record = Record(target: string, port: uint16, priority: uint16, weight: uint16)

  /** The comparator handed to the sort. */
  predicate Before(a: Record, b: Record) {
    if a.priority == b.priority then
      if a.weight == b.weight then
        if a.target == b.target then a.port < b.port else StringLess(a.target, b.target)
      else a.weight > b.weight
    else a.priority < b.priority
  }

  /** The comparator ties only on equal records. */
  lemma BeforeOrder()
    ensures StrictTotalOrder(Before)
  {
    forall a, b, c | Before(a, b) && Before(b, c) ensures Before(a, c) {
      if a.target != b.target && b.target != c.target && StringLess(a.target, b.target) && StringLess(b.target, c.target) {
        StringLessTrans(a.target, b.target, c.target);
        StringLessTotal(a.target, c.target);
      }
    }
    forall a, b ensures a == b ==> !Before(a, b)
      ensures a != b ==> Before(a, b) || Before(b, a)
    {
      StringLessTotal(a.target, b.target);
    }
  }

  /** What sorting by it means: priority upwards, weight downwards, then target and port upwards. */
  lemma SortedFields(s: seq<Record>)
    requires Sorted(Before, s)
    ensures forall j, k | 0 <= j < k < |s| ::
              || s[j].priority < s[k].priority
              || (s[j].priority == s[k].priority && s[j].weight > s[k].weight)
              || (s[j].priority == s[k].priority && s[j].weight == s[k].weight && StringLess(s[j].target, s[k].target))
              || (s[j].priority == s[k].priority && s[j].weight == s[k].weight && s[j].target == s[k].target
                  && s[j].port <= s[k].port)
  {
    forall j, k | 0 <= j < k < |s|
      ensures !Before(s[k], s[j]) && (s[j].target != s[k].target ==> StringLess(s[j].target, s[k].target) || StringLess(s[k].target, s[j].target))
    {
      StringLessTotal(s[j].target, s[k].target);
    }
  }

  // ---- Host names

  /** `net.JoinHostPort`: a host with a colon is taken for an IPv6 address. */
  function JoinHostPort(host: string, port: nat): string {
    if ':' in host then "[" + host + "]:" + Decimal(port) else host + ":" + Decimal(port)
  }

  function HostOf(scheme: string, r: Record): string {
    scheme + "://" + JoinHostPort(r.target, r.port as nat)
  }

  /** What a host name is made of: the target, in brackets if it has a colon, and the port in decimal. */
  lemma HostReads(scheme: string, r: Record) returns (port: string)
    ensures HostOf(scheme, r) == scheme + "://" + (if ':' in r.target then "[" + r.target + "]" else r.target) + ":" + port
    ensures Digits(port) && Number(port) == r.port as nat && (port[0] == '0' ==> port == "0")
  {
    hide Decimal, Number;
    port := Decimal(r.port as nat);
    DecimalReads(r.port as nat);
    Joined(r.target, r.port as nat);
    Reassociate(scheme + "://", Bracketed(r.target), ":" + port);
    Reassociate(scheme + "://" + Bracketed(r.target), ":", port);
    Reassociate(Bracketed(r.target), ":", port);
  }

  /** For instance. */
  lemma HostSamples()
    ensures HostOf("http", Record("a.b", 8080, 1, 2)) == "http://a.b:8080"
    ensures HostOf("https", Record("::1", 80, 0, 0)) == "https://[::1]:80"
  {
    assert Decimal(8) == "8" && Decimal(80) == "80" && Decimal(808) == "808" && Decimal(8080) == "8080";
    assert ':' in "::1" by { assert "::1"[0] == ':'; }
  }

  lemma NoColon(s: string)
    requires Digits(s)
    ensures ':' !in s
  {
  }

  /** The text before the last colon, and after it. */
  lemma LastColon(a: string, b: string, d: string, e: string)
    requires a + ":" + d == b + ":" + e && ':' !in d && ':' !in e
    ensures a == b && d == e
  {
    var s, t := a + ":" + d, b + ":" + e;
    assert s[|a|] == ':' && s[|a| + 1..] == d;
    assert t[|b|] == ':' && t[|b| + 1..] == e;
    assert |a| == |b|;
    assert s[..|a|] == a && t[..|b|] == b;
  }

  /** Different targets or ports give different host names, bracketed or not. */
  lemma HostInjective(scheme: string, r: Record, r': Record)
    requires HostOf(scheme, r) == HostOf(scheme, r')
    ensures r.target == r'.target && r.port == r'.port
  {
    var p, p' := r.port as nat, r'.port as nat;
    CancelPrefix(scheme + "://", JoinHostPort(r.target, p), JoinHostPort(r'.target, p'));
    hide Decimal, Bracketed;
    Joined(r.target, p);
    Joined(r'.target, p');
    DecimalReads(p);
    DecimalReads(p');
    NoColon(Decimal(p));
    NoColon(Decimal(p'));
    LastColon(Bracketed(r.target), Bracketed(r'.target), Decimal(p), Decimal(p'));
    Unbracket(r.target, r'.target);
  }

  function Bracketed(host: string): string {
    if ':' in host then "[" + host + "]" else host
  }

  lemma Joined(host: string, port: nat)
    ensures JoinHostPort(host, port) == Bracketed(host) + ":" + Decimal(port)
  {
    hide Decimal;
    if ':' in host {
      assert "]:" == "]" + ":";
      Reassociate("[" + host, "]", ":");
    }
  }

  lemma Unbracket(t: string, t': string)
    requires Bracketed(t) == Bracketed(t')
    ensures t == t'
  {
    var b, b' := "[" + t + "]", "[" + t' + "]";
    assert b[1..|b| - 1] == t && b'[1..|b'| - 1] == t';
    assert ':' in t ==> ':' in b;
    assert ':' in t' ==> ':' in b';
  }

  // ---- From an answer to a list of hosts

  function Leading(s: seq<Record>, priority: uint16): seq<Record> {
    if s == [] || s[0].priority > priority then [] else [s[0]] + Leading(s[1..], priority)
  }

  /** The records used: up to the first larger priority. */
  function Top(s: seq<Record>): seq<Record> {
    if s == [] then [] else Leading(s, s[0].priority)
  }

  function RawWeights(s: seq<Record>): (ws: seq<nat>)
    ensures |ws| == |s|
  {
    seq(|s|, i requires 0 <= i < |s| => s[i].weight as nat)
  }

  function Hosts(scheme: string, s: seq<Record>): (hs: seq<string>)
    ensures |hs| == |s|
  {
    seq(|s|, i requires 0 <= i < |s| => HostOf(scheme, s[i]))
  }

  function Repeat<T>(x: T, n: nat): (s: seq<T>)
    ensures |s| == n
  {
    seq(n, _ => x)
  }

  function Expand<T>(items: seq<T>, counts: seq<nat>): seq<T>
    requires |items| == |counts|
  {
    if items == [] then []
    else
      var n := |items| - 1;
      Expand(items[..n], counts[..n]) + Repeat(items[n], counts[n])
  }

  function Instances(scheme: string, answer: seq<Record>): seq<string> {
    var top := Top(Sort(Before, answer));
    Expand(Hosts(scheme, top), Compacted(RawWeights(top)))
  }

  // ---- What the list promises

  /** The records used are those that share the priority of the first; the others come later and have a larger one. */
  lemma TopPrefix(s: seq<Record>)
    requires Sorted(Before, s)
    ensures |Top(s)| <= |s| && Top(s) == s[..|Top(s)|] && (s != [] ==> Top(s) != [])
    ensures forall j | 0 <= j < |s| :: if j < |Top(s)| then s[j].priority == s[0].priority else s[j].priority > s[0].priority
  {
    if s != [] {
      hide Sorted, Before;
      SortedFields(s);
      LeadingPrefix(s, s[0].priority);
    }
  }

  lemma {:induction false} LeadingPrefix(s: seq<Record>, p: uint16)
    ensures |Leading(s, p)| <= |s| && Leading(s, p) == s[..|Leading(s, p)|]
    ensures forall j | 0 <= j < |Leading(s, p)| :: s[j].priority <= p
    ensures |Leading(s, p)| < |s| ==> s[|Leading(s, p)|].priority > p
  {
    if s != [] && s[0].priority <= p {
      LeadingPrefix(s[1..], p);
      var n := |Leading(s[1..], p)|;
      assert s[..n + 1] == [s[0]] + s[1..][..n];
    }
  }

  /** Where the entries of an item stand: after those of the items before it. */
  lemma {:induction false} ExpandAt<T>(items: seq<T>, counts: seq<nat>, i: nat, j: nat)
    requires |items| == |counts| && i < |items| && j < counts[i]
    ensures Sum(counts[..i]) + j < |Expand(items, counts)| && Expand(items, counts)[Sum(counts[..i]) + j] == items[i]
  {
    var n := |items| - 1;
    var before := Expand(items[..n], counts[..n]);
    if i < n {
      ExpandAt(items[..n], counts[..n], i, j);
      assert counts[..n][..i] == counts[..i];
    } else {
      ExpandLength(items[..n], counts[..n]);
      assert Expand(items, counts) == before + Repeat(items[n], counts[n]);
    }
  }

  predicate Lowest(answer: seq<Record>, r: Record) {
    forall x <- answer :: r.priority <= x.priority
  }

  lemma {:induction false} LeadingExactly(s: seq<Record>, priority: uint16, r: Record)
    requires Sorted(Before, s)
    ensures multiset(Leading(s, priority))[r] == if r.priority <= priority then multiset(s)[r] else 0
  {
    if s != [] {
      assert s == [s[0]] + s[1..];
      if s[0].priority <= priority {
        LeadingExactly(s[1..], priority, r);
      } else if r in multiset(s) {
        var i :| 0 <= i < |s| && s[i] == r;
        if i > 0 { assert !Before(s[i], s[0]); }
      }
    }
  }

  /** The records used are exactly those of the lowest priority, each as often as it was answered. */
  lemma TopExactly(answer: seq<Record>, r: Record)
    ensures multiset(Top(Sort(Before, answer)))[r] == if Lowest(answer, r) then multiset(answer)[r] else 0
  {
    BeforeOrder();
    SortSorts(Before, answer);
    var s := Sort(Before, answer);
    assert forall x :: x in answer <==> x in multiset(answer);
    assert forall x :: x in s <==> x in multiset(s);
    if s != [] {
      LeadingExactly(s, s[0].priority, r);
      assert s[0] in answer;
      if r in answer && r.priority <= s[0].priority {
        forall x | x in answer ensures r.priority <= x.priority {
          var i :| 0 <= i < |s| && s[i] == x;
          if i > 0 { assert !Before(s[i], s[0]); }
        }
      }
    }
  }

  /** The list does not depend on the order of the answer, nor on how the sort breaks ties. */
  lemma OrderIrrelevant(scheme: string, answer: seq<Record>, answer': seq<Record>, sorted: seq<Record>)
    requires multiset(answer) == multiset(answer') == multiset(sorted) && Sorted(Before, sorted)
    ensures Instances(scheme, answer) == Instances(scheme, answer')
         == Expand(Hosts(scheme, Top(sorted)), Compacted(RawWeights(Top(sorted))))
  {
    BeforeOrder();
    SortSorts(Before, answer);
    SortSorts(Before, answer');
    SortedUnique(Before, Sort(Before, answer), Sort(Before, answer'));
    SortedUnique(Before, Sort(Before, answer), sorted);
  }

  lemma {:induction false} ExpandLength<T>(items: seq<T>, counts: seq<nat>)
    requires |items| == |counts|
    ensures |Expand(items, counts)| == Sum(counts)
  {
    if items != [] { ExpandLength(items[..|items| - 1], counts[..|items| - 1]); }
  }

  /** The list is short, and empty only if no record of the lowest priority has a positive weight. */
  lemma InstancesLength(scheme: string, answer: seq<Record>)
    ensures var top := Top(Sort(Before, answer));
            && |Instances(scheme, answer)| <= (if |top| > 100 then |top| else 100)
            && (Instances(scheme, answer) != [] <==> exists r <- top :: r.weight > 0)
  {
    var top := Top(Sort(Before, answer));
    var ws := RawWeights(top);
    ExpandLength(Hosts(scheme, top), Compacted(ws));
    CompactSum(ws);
    SumZero(ws);
    if r :| r in top && r.weight > 0 {
      var i :| 0 <= i < |top| && top[i] == r;
      assert ws[i] > 0;
    }
    if i :| 0 <= i < |ws| && ws[i] != 0 { assert top[i] in top; }
  }

  /** How many entries a host name is due: the counts of all its records. */
  function Share(hosts: seq<string>, counts: seq<nat>, h: string): nat
    requires |hosts| == |counts|
  {
    if hosts == [] then 0
    else
      var n := |hosts| - 1;
      Share(hosts[..n], counts[..n], h) + if hosts[n] == h then counts[n] else 0
  }

  lemma RepeatCount<T>(x: T, n: nat, y: T)
    ensures multiset(Repeat(x, n))[y] == if x == y then n else 0
  {
    if n > 0 {
      RepeatCount(x, n - 1, y);
      assert Repeat(x, n) == Repeat(x, n - 1) + [x];
    }
  }

  /** Each host is listed exactly as often as its records' compacted weights add up to. */
  lemma {:induction false} ExpandShares(hosts: seq<string>, counts: seq<nat>, h: string)
    requires |hosts| == |counts|
    ensures multiset(Expand(hosts, counts))[h] == Share(hosts, counts, h)
  {
    if hosts != [] {
      var n := |hosts| - 1;
      ExpandShares(hosts[..n], counts[..n], h);
      RepeatCount(hosts[n], counts[n], h);
    }
  }

  /** With no two records for one target and port, a record's share is its own compacted weight. */
  lemma {:induction false} OwnShare(scheme: string, top: seq<Record>, counts: seq<nat>, i: nat)
    requires |top| == |counts| && i < |top|
    requires forall j, k | 0 <= j < k < |top| :: top[j].target != top[k].target || top[j].port != top[k].port
    ensures Share(Hosts(scheme, top), counts, HostOf(scheme, top[i])) == counts[i]
  {
    var n := |top| - 1;
    assert Hosts(scheme, top)[..n] == Hosts(scheme, top[..n]);
    if i < n {
      OwnShare(scheme, top[..n], counts[..n], i);
      if HostOf(scheme, top[n]) == HostOf(scheme, top[i]) { HostInjective(scheme, top[n], top[i]); }
    } else {
      NoShare(scheme, top[..n], counts[..n], top[n]);
    }
  }

  lemma {:induction false} NoShare(scheme: string, top: seq<Record>, counts: seq<nat>, r: Record)
    requires |top| == |counts|
    requires forall j | 0 <= j < |top| :: top[j].target != r.target || top[j].port != r.port
    ensures Share(Hosts(scheme, top), counts, HostOf(scheme, r)) == 0
  {
    if top != [] {
      var n := |top| - 1;
      assert Hosts(scheme, top)[..n] == Hosts(scheme, top[..n]);
      NoShare(scheme, top[..n], counts[..n], r);
      if HostOf(scheme, top[n]) == HostOf(scheme, r) { HostInjective(scheme, top[n], r); }
    }
  }
}
