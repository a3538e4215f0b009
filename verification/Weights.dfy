/**
  From raw SRV weights to a short list: scale the weights down so that they add up to about a hundred, then
  divide by their greatest common divisor.
 */
module Weights {
  import opened Arith

  newtype uint16 = x: int | 0 <= x < 0x1_0000

  newtype int64 = x: int | -0x8000_0000_0000_0000 <= x < 0x8000_0000_0000_0000

  /** No Go slice of two-byte elements is longer; up to here the int64 arithmetic cannot wrap around. */
  const MAX_SLICE: int := 0x8000_0000_0000 - 1

  // ---- What the code computes

  function Sum(ws: seq<nat>): nat {
    if ws == [] then 0 else Sum(ws[..|ws| - 1]) + ws[|ws| - 1]
  }

  function Scale(n: nat): nat {
    if n > 100 then n else 100
  }

  function ScaledWeight(w: nat, scale: nat, sum: nat): nat
    requires sum > 0
  {
    w * scale / sum
  }

  function Scaled(ws: seq<nat>, scale: nat, sum: nat): (r: seq<nat>)
    requires sum > 0
    ensures |r| == |ws|
    ensures forall i | 0 <= i < |ws| :: r[i] == ScaledWeight(ws[i], scale, sum)
  {
    seq(|ws|, i requires 0 <= i < |ws| => ScaledWeight(ws[i], scale, sum))
  }

  function Normalized(ws: seq<nat>): (r: seq<nat>)
    ensures |r| == |ws|
  {
    if Sum(ws) <= Scale(|ws|) then ws else Scaled(ws, Scale(|ws|), Sum(ws))
  }

  /** Euclid's algorithm; a zero leaves the other argument. */
  function Gcd(a: nat, b: nat): nat
    decreases b
  {
    if b == 0 then a else Gcd(b, a % b)
  }

  function GcdAll(ws: seq<nat>): nat {
    if ws == [] then 0 else Gcd(GcdAll(ws[..|ws| - 1]), ws[|ws| - 1])
  }

  function Quotient(w: nat, div: nat): nat
    requires div > 0
  {
    w / div
  }

  function Quotients(ws: seq<nat>, div: nat): (r: seq<nat>)
    requires div > 0
    ensures |r| == |ws|
    ensures forall i | 0 <= i < |ws| :: r[i] == Quotient(ws[i], div)
  {
    seq(|ws|, i requires 0 <= i < |ws| => Quotient(ws[i], div))
  }

  function Compacted(ws: seq<nat>): (r: seq<nat>)
    ensures |r| == |ws|
  {
    var tmp := Normalized(ws);
    var div := GcdAll(tmp);
    if div < 2 then tmp else Quotients(tmp, div)
  }

  // ---- The code

  function Nats(ws: seq<uint16>): (r: seq<nat>)
    ensures |r| == |ws|
    ensures forall i | 0 <= i < |ws| :: r[i] == ws[i] as nat
  {
    seq(|ws|, i requires 0 <= i < |ws| => ws[i] as nat)
  }

  lemma SumPrefix(ws: seq<nat>, i: nat)
    requires i < |ws|
    ensures Sum(ws[..i + 1]) == Sum(ws[..i]) + ws[i]
  {
    assert ws[..i + 1][..i] == ws[..i];
  }

  /** Scaling down never overshoots the original weight, so it fits its 16 bits. */
  lemma ScaledDown(w: nat, scale: nat, sum: nat)
    requires 0 < scale < sum
    ensures ScaledWeight(w, scale, sum) <= w
  {
    MulMono(scale, sum, w);
    DivBound(w * scale, sum, w);
  }

  /** One weight scaled in 64 bits and cut to 16: no wrap-around on the way, and nothing cut off. */
  method ScaleOne(w: uint16, scale: int64, sum: int64) returns (r: uint16)
    requires 0 < scale < sum && scale as int <= MAX_SLICE
    ensures r as nat == ScaledWeight(w as nat, scale as nat, sum as nat)
  {
    MulMono(w as int, 0xFFFF, scale as nat);
    MulMono(0, w as int, scale as nat);
    ScaledDown(w as nat, scale as nat, sum as nat);
    var product := w as int64 * scale;
    r := (product / sum) as uint16;
  }

  method Normalize(ws: array<uint16>) returns (res: array<uint16>)
    requires ws.Length <= MAX_SLICE
    ensures res == ws || fresh(res)
    ensures Nats(res[..]) == Normalized(Nats(ws[..]))
  {
    var scale: int64 := 100;
    if ws.Length > 100 {
      scale := ws.Length as int64;
    }
    ghost var nats := Nats(ws[..]);
    var sum: int64 := 0;
    for i := 0 to ws.Length
      invariant sum as int == Sum(nats[..i]) <= 0xFFFF * i
    {
      SumPrefix(nats, i);
      sum := sum + ws[i] as int64;
    }
    assert nats[..ws.Length] == nats;
    if sum <= scale {
      return ws;
    }
    res := new uint16[ws.Length];
    for i := 0 to ws.Length
      invariant forall j | 0 <= j < i :: res[j] as nat == ScaledWeight(nats[j], scale as nat, sum as nat)
    {
      res[i] := ScaleOne(ws[i], scale, sum);
    }
    assert Nats(res[..]) == Scaled(nats, scale as nat, sum as nat);
  }

  method GcdOf(ws: array<uint16>) returns (result: uint16)
    ensures result as nat == GcdAll(Nats(ws[..]))
  {
    if ws.Length == 0 {
      return 0;
    }
    ghost var nats := Nats(ws[..]);
    result := ws[0];
    assert nats[..1][..0] == [] && GcdAll(nats[..1]) == Gcd(0, nats[0]) == nats[0];
    for i := 1 to ws.Length
      invariant result as nat == GcdAll(nats[..i])
    {
      assert nats[..i + 1][..i] == nats[..i];
      result := LocalGcd(result, ws[i]);
    }
    assert nats[..ws.Length] == nats;
  }

  method LocalGcd(a: uint16, b: uint16) returns (r: uint16)
    ensures r as nat == Gcd(a as nat, b as nat)
  {
    var x, y := a, b;
    while y > 0
      invariant Gcd(x as nat, y as nat) == Gcd(a as nat, b as nat)
    {
      x, y := y, x % y;
    }
    return x;
  }

  method DivideOne(w: uint16, div: uint16) returns (r: uint16)
    requires div > 0
    ensures r as nat == Quotient(w as nat, div as nat)
  {
    MulMono(1, div as nat, w as nat);
    DivBound(w as nat, div as nat, w as nat);
    r := w / div;
  }

  method Compact(ws: array<uint16>) returns (res: array<uint16>)
    requires ws.Length <= MAX_SLICE
    ensures res == ws || fresh(res)
    ensures Nats(res[..]) == Compacted(Nats(ws[..]))
  {
    hide Normalized, GcdAll, Quotient;
    ghost var given := ws[..];
    var tmp := Normalize(ws);
    ghost var t := Nats(tmp[..]);
    var div := GcdOf(tmp);
    if div < 2 {
      return tmp;
    }
    res := new uint16[tmp.Length];
    for i := 0 to tmp.Length
      invariant Nats(tmp[..]) == t
      invariant forall j | 0 <= j < i :: res[j] as nat == Quotient(t[j], div as nat)
    {
      res[i] := DivideOne(tmp[i], div);
    }
    assert ws[..] == given;
    assert Nats(res[..]) == Quotients(t, div as nat);
  }
}
