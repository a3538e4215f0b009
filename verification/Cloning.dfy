/** Deep copies of requests, whose bodies go through buffers shared by a pool. */
module Cloning {
  import opened Wrappers

  type byte = x: int | 0 <= x < 256

  /** A body: the bytes of an array from a position on, and then the end or an error. */
  class Reader {
    const data: array<byte>
    const fails: bool
    var at: nat
    var closed: bool

    constructor (data: array<byte>)
      ensures this.data == data && at == 0 && !closed && !fails
    {
      this.data, fails := data, false;
      at, closed := 0, false;
    }

    ghost predicate Valid()
      reads this
    {
      at <= data.Length
    }

    /** What a read to the end or to the error would return. */
    ghost function Remaining(): seq<byte>
      requires Valid()
      reads this, data
    {
      data[at..]
    }

    method Close()
      modifies this`closed
      ensures closed
    {
      closed := true;
    }
  }

  /** A growing buffer; its bytes are the first `len` of an array that it keeps and reuses. */
  class Buffer {
    var store: array<byte>
    var len: nat

    constructor ()
      ensures fresh(store) && Valid() && len == 0
    {
      store := new byte[0];
      len := 0;
    }

    ghost predicate Valid()
      reads this
    {
      len <= store.Length
    }

    method Reset()
      modifies this`len
      ensures len == 0 && Valid()
    {
      len := 0;
    }

    /** Room for `n` more bytes, in a larger array if need be. */
    method Grow(n: nat)
      requires Valid()
      modifies this`store
      ensures Valid() && len + n <= store.Length && (store == old(store) || fresh(store))
      ensures store[..len] == old(store[..len])
    {
      if len + n > store.Length {
        var larger, was := new byte[2 * store.Length + n], store;
        forall i | 0 <= i < len { larger[i] := was[i]; }
        store := larger;
      }
    }

    /** Appends the rest of a body, also of one that fails in the end. */
    method ReadFrom(body: Reader) returns (failed: bool)
      requires Valid() && body.Valid() && body.data != store
      modifies this, store, body`at
      ensures Valid() && body.Valid() && (store == old(store) || fresh(store))
      ensures store[..len] == old(store[..len] + body.Remaining())
      ensures body.Remaining() == [] && failed == body.fails
    {
      var src, start, n := body.data, body.at, body.data.Length - body.at;
      Grow(n);
      var to := store;
      forall i | 0 <= i < n { to[len + i] := src[start + i]; }
      len := len + n;
      body.at := body.data.Length;
      failed := body.fails;
    }
  }

  /** Buffers not in use; `buffers` and `stores` are all the pool has ever handed out, in use or not. */
  class Pool {
    var free: set<Buffer>
    ghost var buffers: set<Buffer>
    ghost var stores: set<array<byte>>

    constructor ()
      ensures Valid() && buffers == {} && stores == {}
    {
      free, buffers, stores := {}, {}, {};
    }

    ghost predicate Valid()
      reads this, free
    {
      forall b | b in free :: b in buffers && b.store in stores && b.Valid()
    }

    /** A free buffer, or a new one: the pool may forget what it was given. */
    method Get() returns (buf: Buffer)
      requires Valid()
      modifies this
      ensures Valid() && buf.Valid() && buf !in free
      ensures buffers == old(buffers) + {buf} && stores == old(stores) + {buf.store}
      ensures (fresh(buf) && fresh(buf.store)) || (buf in old(buffers) && buf.store in old(stores))
    {
      if * {
        buf := new Buffer();
      } else if free != {} {
        buf :| buf in free;
        free := free - {buf};
      } else {
        buf := new Buffer();
      }
      buffers, stores := buffers + {buf}, stores + {buf.store};
    }

    method Put(buf: Buffer)
      requires Valid() && buf.Valid()
      modifies this
      ensures Valid() && free == old(free) + {buf}
      ensures buffers == old(buffers) + {buf} && stores == old(stores) + {buf.store}
    {
      free := free + {buf};
      buffers, stores := buffers + {buf}, stores + {buf.store};
    }
  }

  class ParamMap {
    var entries: map<string, string>

    constructor ()
      ensures entries == map[]
    {
      entries := map[];
    }
  }

  class HeaderMap {
    var entries: map<string, array<string>>

    constructor ()
      ensures entries == map[]
    {
      entries := map[];
    }
  }

  class Url {
    var text: string

    constructor (text: string)
      ensures this.text == text
    {
      this.text := text;
    }
  }

  /** A URL is printed and parsed again; one whose text does not parse is lost. */
  method CloneUrl(url: Url?, parse: string -> Option<string>) returns (copy: Url?)
    ensures copy == null <==> url == null || parse(url.text).None?
    ensures copy != null ==> fresh(copy) && copy.text == parse(url.text).value
  {
    copy := null;
    if url != null && parse(url.text).Some? {
      copy := new Url(parse(url.text).value);
    }
  }

  /** The query stays shared between a request and its clones, and is never looked at here. */
  class Query {
  }

  class Request {
    var verb: string
    var url: Url?
    var query: Query
    var path: string
    var params: ParamMap
    var headers: HeaderMap
    var body: Reader?

    constructor (verb: string, url: Url?, query: Query, path: string, params: ParamMap, headers: HeaderMap, body: Reader?)
      ensures this.verb == verb && this.url == url && this.query == query && this.path == path
      ensures this.params == params && this.headers == headers && this.body == body
    {
      this.verb, this.url, this.query, this.path := verb, url, query, path;
      this.params, this.headers, this.body := params, headers, body;
    }
  }

  method CloneRequestParams(params: ParamMap) returns (m: ParamMap)
    ensures fresh(m) && m.entries == params.entries
  {
    m := new ParamMap();
    var rest := params.entries.Keys;
    while rest != {}
      invariant fresh(m) && rest <= params.entries.Keys && m.entries == params.entries - rest
      decreases rest
    {
      var k :| k in rest;
      rest := rest - {k};
      m.entries := m.entries[k := params.entries[k]];
    }
  }

  /** The same keys with the same values, no two lists of `m` in one place. */
  ghost predicate CopyOfHeaders(m: HeaderMap, headers: HeaderMap)
    reads m, headers, m.entries.Values, headers.entries.Values
  {
    && m.entries.Keys == headers.entries.Keys
    && (forall k | k in m.entries :: m.entries[k][..] == headers.entries[k][..])
    && (forall k, k' | k in m.entries && k' in m.entries && k != k' :: m.entries[k] != m.entries[k'])
  }

  method CopyValues(vs: array<string>) returns (tmp: array<string>)
    ensures fresh(tmp) && tmp[..] == vs[..]
  {
    tmp := new string[vs.Length];
    forall i | 0 <= i < vs.Length { tmp[i] := vs[i]; }
  }

  /** Every list of values is copied to an array of its own. */
  method CloneRequestHeaders(headers: HeaderMap) returns (m: HeaderMap)
    ensures fresh(m) && fresh(m.entries.Values) && CopyOfHeaders(m, headers)
  {
    m := new HeaderMap();
    var rest := headers.entries.Keys;
    while rest != {}
      invariant fresh(m) && rest <= headers.entries.Keys && m.entries.Keys == headers.entries.Keys - rest
      invariant forall k | k in m.entries :: fresh(m.entries[k]) && m.entries[k][..] == headers.entries[k][..]
      invariant forall k, k' | k in m.entries && k' in m.entries && k != k' :: m.entries[k] != m.entries[k']
      decreases rest
    {
      var k :| k in rest;
      rest := rest - {k};
      var tmp := CopyValues(headers.entries[k]);
      m.entries := m.entries[k := tmp];
    }
  }

  method CopyOf(data: array<byte>, n: nat) returns (c: array<byte>)
    requires n <= data.Length
    ensures fresh(c) && c[..] == data[..n]
  {
    c := new byte[n];
    forall i | 0 <= i < n { c[i] := data[i]; }
  }

  /** `body` reads back `bytes`, and no buffer of the pool can write to it. */
  ghost predicate Handed(body: Reader, bytes: seq<byte>, stores: set<array<byte>>)
    reads body, body.data
  {
    body.data !in stores && body.Valid() && body.Remaining() == bytes
  }

  /** Two copies of what a buffer holds, which then goes back to the pool. */
  method CopyTwice(buf: Buffer, pool: Pool) returns (originalBody: array<byte>, clonedBody: array<byte>)
    requires pool.Valid() && buf.Valid()
    modifies pool
    ensures pool.Valid() && pool.buffers == old(pool.buffers) + {buf} && pool.stores == old(pool.stores) + {buf.store}
    ensures pool.free == old(pool.free) + {buf}
    ensures fresh(originalBody) && fresh(clonedBody) && originalBody != clonedBody
    ensures originalBody !in pool.stores && clonedBody !in pool.stores
    ensures originalBody[..] == clonedBody[..] == buf.store[..buf.len]
  {
    originalBody := CopyOf(buf.store, buf.len);
    clonedBody := CopyOf(buf.store, buf.len);
    pool.Put(buf);
  }

  /** The rest of a body, read into a pooled buffer and copied from there twice. */
  method ReadTwice(body: Reader, pool: Pool) returns (originalBody: array<byte>, clonedBody: array<byte>)
    requires pool.Valid() && body.Valid() && body.data !in pool.stores
    modifies body, pool, pool.buffers, pool.stores
    ensures pool.Valid() && old(pool.buffers) <= pool.buffers && old(pool.stores) <= pool.stores
    ensures fresh(pool.buffers - old(pool.buffers)) && fresh(pool.stores - old(pool.stores))
    ensures fresh(originalBody) && fresh(clonedBody) && originalBody != clonedBody
    ensures originalBody !in pool.stores && clonedBody !in pool.stores
    ensures originalBody[..] == clonedBody[..] == old(body.Remaining())
    ensures body.closed && pool.free != {}
  {
    var buf := pool.Get();
    buf.Reset();
    var _ := buf.ReadFrom(body);
    body.Close();
    originalBody, clonedBody := CopyTwice(buf, pool);
  }

  method CloneBody(body: Reader, pool: Pool) returns (original: Reader, cloned: Reader)
    requires pool.Valid() && body.Valid() && body.data !in pool.stores
    modifies body, pool, pool.buffers, pool.stores
    ensures pool.Valid() && old(pool.buffers) <= pool.buffers && old(pool.stores) <= pool.stores
    ensures fresh(pool.buffers - old(pool.buffers)) && fresh(pool.stores - old(pool.stores))
    ensures fresh(original) && fresh(original.data) && Handed(original, old(body.Remaining()), pool.stores)
    ensures fresh(cloned) && fresh(cloned.data) && Handed(cloned, old(body.Remaining()), pool.stores)
    ensures original != cloned && original.data != cloned.data && !original.fails && !cloned.fails
    ensures body.closed && pool.free != {}
  {
    hide Pool.Valid;
    var originalBody, clonedBody := ReadTwice(body, pool);
    original := new Reader(originalBody);
    cloned := new Reader(clonedBody);
  }

  /** No body in common, nor the bytes it reads from. */
  ghost predicate Apart(r: Request, s: Request)
    reads r, s
  {
    r.body != null && s.body != null ==> r.body != s.body && r.body.data != s.body.data
  }

  /** `r` still has `bytes` to read, or no body at all; nothing the pool owns is part of it. */
  ghost predicate Holds(r: Request, bytes: Option<seq<byte>>, stores: set<array<byte>>)
    reads r, r.body, if r.body == null then {} else {r.body.data}
  {
    if r.body == null then bytes == None else bytes.Some? && Handed(r.body, bytes.value, stores)
  }

  /** What a request still has to read. */
  ghost function Unread(r: Request): Option<seq<byte>>
    requires r.body != null ==> r.body.Valid()
    reads r, r.body, if r.body == null then {} else {r.body.data}
  {
    if r.body == null then None else Some(r.body.Remaining())
  }

  /** Everything but the body. */
  method CloneFields(r: Request, cloned: Reader?, parse: string -> Option<string>) returns (clone: Request)
    ensures fresh(clone) && clone.verb == r.verb && clone.query == r.query && clone.path == r.path
    ensures clone.url == null <==> r.url == null || parse(r.url.text).None?
    ensures clone.url != null ==> fresh(clone.url) && clone.url.text == parse(r.url.text).value
    ensures fresh(clone.params) && clone.params.entries == r.params.entries
    ensures fresh(clone.headers) && fresh(clone.headers.entries.Values) && CopyOfHeaders(clone.headers, r.headers)
    ensures clone.body == cloned
  {
    hide *;
    var url := CloneUrl(r.url, parse);
    var headers := CloneRequestHeaders(r.headers);
    var params := CloneRequestParams(r.params);
    clone := new Request(r.verb, url, r.query, r.path, params, headers, cloned);
  }

  /** The clone has the same bytes to read as the original had, and so has the original still. */
  method CloneRequest(r: Request, pool: Pool, parse: string -> Option<string>) returns (clone: Request)
    requires pool.Valid()
    requires r.body != null ==> r.body.Valid() && r.body.data !in pool.stores
    modifies r`body, r.body, pool, pool.buffers, pool.stores
    ensures pool.Valid() && old(pool.buffers) <= pool.buffers && old(pool.stores) <= pool.stores
    ensures fresh(pool.buffers - old(pool.buffers)) && fresh(pool.stores - old(pool.stores))
    ensures fresh(clone) && clone.verb == r.verb && clone.path == r.path && clone.query == r.query
    ensures clone.url == null <==> r.url == null || parse(r.url.text).None?
    ensures clone.url != null ==> fresh(clone.url) && clone.url.text == parse(r.url.text).value
    ensures fresh(clone.params) && clone.params.entries == r.params.entries
    ensures fresh(clone.headers) && fresh(clone.headers.entries.Values) && CopyOfHeaders(clone.headers, r.headers)
    ensures Holds(r, old(Unread(r)), pool.stores) && Holds(clone, old(Unread(r)), pool.stores) && Apart(r, clone)
    ensures r.body != null ==> fresh(r.body) && fresh(r.body.data) && !r.body.fails
    ensures clone.body != null ==> fresh(clone.body) && fresh(clone.body.data) && !clone.body.fails
    ensures old(r.body) != null ==> old(r.body).closed && pool.free != {}
  {
    hide CopyOfHeaders, Pool.Valid;
    var cloned: Reader? := null;
    if r.body != null {
      var original;
      original, cloned := CloneBody(r.body, pool);
      r.body := original;
    }
    clone := CloneFields(r, cloned, parse);
  }

  /** Where the URL, the parameters and the headers of a request live. */
  ghost function Storage(r: Request): set<object>
    reads r`url, r`params, r`headers, r.headers
  {
    var url: set<object> := if r.url == null then {} else {r.url};
    url + {r.params, r.headers} + r.headers.entries.Values
  }

  /** Requests that do not share a body, each with its own bytes to read. */
  ghost predicate AllHold(all: seq<Request>, bytes: seq<Option<seq<byte>>>, stores: set<array<byte>>)
    requires |all| == |bytes|
    reads all, set i | 0 <= i < |all| && all[i].body != null :: all[i].body
    reads set i | 0 <= i < |all| && all[i].body != null :: all[i].body.data
  {
    && (forall i | 0 <= i < |all| :: Holds(all[i], bytes[i], stores))
    && (forall i, j | 0 <= i < j < |all| :: all[i] != all[j] && Apart(all[i], all[j]))
  }

  /** The clone keeps its URL, parameters and headers where nothing was before. */
  method CloneAfresh(r: Request, pool: Pool, parse: string -> Option<string>, ghost before: set<object>)
    returns (clone: Request)
    requires pool.Valid()
    requires r.body != null ==> r.body.Valid() && r.body.data !in pool.stores
    modifies r`body, r.body, pool, pool.buffers, pool.stores
    ensures pool.Valid() && old(pool.buffers) <= pool.buffers && old(pool.stores) <= pool.stores
    ensures fresh(pool.buffers - old(pool.buffers)) && fresh(pool.stores - old(pool.stores))
    ensures fresh(clone) && Storage(clone) !! before
    ensures Holds(r, old(Unread(r)), pool.stores) && Holds(clone, old(Unread(r)), pool.stores) && Apart(r, clone)
    ensures r.body != null ==> fresh(r.body) && fresh(r.body.data)
    ensures clone.body != null ==> fresh(clone.body) && fresh(clone.body.data)
  {
    hide Pool.Valid, Reader.Valid, Reader.Remaining, Holds, CopyOfHeaders, Apart, Unread;
    clone := CloneRequest(r, pool, parse);
    assert fresh(Storage(clone));
  }

  /** The clone keeps its URL, parameters and headers where none of the others does. */
  method CloneStored(all: seq<Request>, x: nat, pool: Pool, parse: string -> Option<string>) returns (clone: Request)
    requires pool.Valid() && x < |all|
    requires all[x].body != null ==> all[x].body.Valid() && all[x].body.data !in pool.stores
    modifies {all[x]}`body, all[x].body, pool, pool.buffers, pool.stores
    ensures pool.Valid() && old(pool.buffers) <= pool.buffers && old(pool.stores) <= pool.stores
    ensures fresh(pool.buffers - old(pool.buffers)) && fresh(pool.stores - old(pool.stores))
    ensures fresh(clone)
    ensures Holds(all[x], old(Unread(all[x])), pool.stores) && Holds(clone, old(Unread(all[x])), pool.stores)
    ensures Apart(all[x], clone)
    ensures all[x].body != null ==> fresh(all[x].body) && fresh(all[x].body.data)
    ensures clone.body != null ==> fresh(clone.body) && fresh(clone.body.data)
    ensures forall i | 0 <= i < |all| :: Storage(all[i]) == old(Storage(all[i]))
    ensures forall i | 0 <= i < |all| :: Storage(clone) !! Storage(all[i])
  {
    hide Pool.Valid, Reader.Valid, Reader.Remaining, Holds, Apart, Unread, Storage;
    ghost var before := set i, o | 0 <= i < |all| && o in Storage(all[i]) :: o;
    clone := CloneAfresh(all[x], pool, parse, before);
    forall i | 0 <= i < |all|
      ensures Storage(all[i]) == old(Storage(all[i])) && Storage(clone) !! Storage(all[i])
    {
    }
  }

  /** One clone among many requests leaves all of them, and the clone, with the bytes they should have. */
  method CloneOne(all: seq<Request>, x: nat, pool: Pool, parse: string -> Option<string>,
                  ghost bytes: seq<Option<seq<byte>>>)
    returns (clone: Request)
    requires pool.Valid() && |bytes| == |all| && x < |all| && AllHold(all, bytes, pool.stores)
    modifies {all[x]}`body, all[x].body, pool, pool.buffers, pool.stores
    ensures pool.Valid() && old(pool.buffers) <= pool.buffers && old(pool.stores) <= pool.stores
    ensures fresh(pool.buffers - old(pool.buffers)) && fresh(pool.stores - old(pool.stores))
    ensures fresh(clone) && (clone.body == null || fresh(clone.body)) && (all[x].body == null || fresh(all[x].body))
    ensures AllHold(all + [clone], bytes + [bytes[x]], pool.stores)
    ensures forall i | 0 <= i < |all| :: Storage(all[i]) == old(Storage(all[i]))
    ensures forall i | 0 <= i < |all| :: Storage(clone) !! Storage(all[i])
  {
    hide Pool.Valid, Reader.Remaining, Reader.Valid, Storage;
    assert forall i | 0 <= i < |all| && i != x :: all[i] != all[x] && Apart(all[i], all[x]) && Apart(all[x], all[i]);
    clone := CloneStored(all, x, pool, parse);
    forall i | 0 <= i < |all|
      ensures Holds(all[i], bytes[i], pool.stores) && clone != all[i] && Apart(all[i], clone)
    {
      if i != x {
        assert old(Holds(all[i], bytes[i], pool.stores) && Apart(all[i], all[x]));
      }
    }
    assert Holds(clone, bytes[x], pool.stores);
    assert forall i, j | 0 <= i < j < |all| :: Apart(all[i], all[j]);
    hide *;
    AllHoldSnoc(all, bytes, pool.stores, clone, bytes[x]);
  }

  lemma AllHoldSnoc(all: seq<Request>, bytes: seq<Option<seq<byte>>>, stores: set<array<byte>>, r: Request,
          b: Option<seq<byte>>)
    requires |all| == |bytes| && Holds(r, b, stores)
    requires forall i | 0 <= i < |all| :: Holds(all[i], bytes[i], stores) && r != all[i] && Apart(all[i], r)
    requires forall i, j | 0 <= i < j < |all| :: all[i] != all[j] && Apart(all[i], all[j])
    ensures AllHold(all + [r], bytes + [b], stores)
  {
    hide Holds;
  }

  /**
    Any sequence of clones through one pool: `schedule` says which request, or earlier clone, is cloned when.
    In the end all of them read back what their original held in the beginning, whatever the pool wrote to
    its buffers in between.
   */
  method CloneAll(requests: seq<Request>, schedule: seq<nat>, pool: Pool, parse: string -> Option<string>,
                  ghost bytes: seq<Option<seq<byte>>>)
    returns (all: seq<Request>, ghost held: seq<Option<seq<byte>>>)
    requires pool.Valid() && |bytes| == |requests| && AllHold(requests, bytes, pool.stores)
    requires forall i | 0 <= i < |schedule| :: schedule[i] < |requests| + i
    modifies requests, set r | r in requests && r.body != null :: r.body
    modifies pool, pool.buffers, pool.stores
    ensures |all| == |held| == |requests| + |schedule| && requests <= all && bytes <= held
    ensures forall i | 0 <= i < |schedule| :: held[|requests| + i] == held[schedule[i]]
    ensures AllHold(all, held, pool.stores)
    ensures forall i, j | |requests| <= i < |all| && 0 <= j < i :: Storage(all[i]) !! Storage(all[j])
  {
    hide *;
    all, held := requests, bytes;
    ghost var own := set r | r in requests && r.body != null :: r.body;
    for i := 0 to |schedule|
      invariant pool.Valid() && fresh(pool.buffers - old(pool.buffers)) && fresh(pool.stores - old(pool.stores))
      invariant |all| == |held| == |requests| + i && requests <= all && bytes <= held
      invariant forall j | 0 <= j < i :: held[|requests| + j] == held[schedule[j]]
      invariant forall j | |requests| <= j < |all| :: fresh(all[j])
      invariant forall j | 0 <= j < |all| && all[j].body != null :: all[j].body in own || fresh(all[j].body)
      invariant AllHold(all, held, pool.stores)
      invariant forall i, j | |requests| <= i < |all| && 0 <= j < i :: Storage(all[i]) !! Storage(all[j])
    {
      var clone := CloneOne(all, schedule[i], pool, parse, held);
      all, held := all + [clone], held + [held[schedule[i]]];
    }
  }
}
