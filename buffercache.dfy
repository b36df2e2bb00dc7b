/** The client-side bookkeeping of `Buffer` (sc3/synth/buffer.py): the
    class-level `_server_caches` registry that keeps, per server, a `/b_info`
    responder and the cached buffers in insertion order, the responder's
    update of a cached buffer, and the buffer object's own `free`,
    `update_info` and "already freed" guard. OSC sends are returned as
    values; the responder's `free()` and the notification hook that clears a
    cache when the server reboots are not modelled beyond the cache change
    they cause. */
module BufferCache {
  import opened Wrappers
  import opened BufferMessages

  /** A server, known by identity. */
  class Server {
    constructor () {}
  }

  /** A user callback (`do_on_info`), known by identity. */
  type Action = nat

  /** A key of a server's cache: a buffer number (possibly `None`, the
      number of a freed buffer) or the string `'responder'`. */
  datatype Key = Bufnum(n: Option<int>) | ResponderKey

  /** A value of a server's cache: a buffer, or the `/b_info` responder. */
  datatype Entry = Cached(buffer: Buffer) | Responder

  /** A Python dict: key/value pairs in insertion order. */
  type Dict = seq<(Key, Entry)>

  ghost predicate UniqueKeys(d: Dict) {
    forall i, j :: 0 <= i < j < |d| ==> d[i].0 != d[j].0
  }

  /** The position of `k` in `d`, if it is there. */
  function Find(d: Dict, k: Key): (r: Option<nat>)
    ensures r.Some? ==> r.value < |d| && d[r.value].0 == k
    ensures r.None? ==> forall i :: 0 <= i < |d| ==> d[i].0 != k
  {
    if d == [] then None
    else if d[|d| - 1].0 == k then Some(|d| - 1)
    else Find(d[..|d| - 1], k)
  }

  /** `d[k]`, or `None` where Python raises `KeyError`. */
  function Lookup(d: Dict, k: Key): (r: Option<Entry>)
    ensures r.None? <==> forall i :: 0 <= i < |d| ==> d[i].0 != k
    ensures r.Some? ==> (k, r.value) in d
  {
    var i := Find(d, k);
    if i.Some? then Some(d[i.value].1) else None
  }

  /** With unique keys the pair holding `k` is the one `Find` reports. */
  lemma FindUnique(d: Dict, k: Key, i: nat)
    requires UniqueKeys(d) && i < |d| && d[i].0 == k
    ensures Find(d, k) == Some(i)
  {
  }

  /** `d[k] = v`: an existing key keeps its position, a new one goes last. */
  function Put(d: Dict, k: Key, v: Entry): (r: Dict)
    ensures UniqueKeys(d) ==> UniqueKeys(r)
    ensures Find(d, k).Some? ==> |r| == |d|
    ensures Find(d, k).None? ==> r == d + [(k, v)]
  {
    var i := Find(d, k);
    if i.Some? then d[i.value := (k, v)] else d + [(k, v)]
  }

  /** `del d[k]`: the other pairs keep their order. */
  function Delete(d: Dict, k: Key): (r: Dict)
    ensures UniqueKeys(d) ==> UniqueKeys(r)
    ensures Find(d, k).Some? ==> |r| == |d| - 1
    ensures Find(d, k).None? ==> r == d
  {
    var i := Find(d, k);
    if i.Some? then d[..i.value] + d[i.value + 1..] else d
  }

  /** After `d[k] = v`, looking up `k` gives `v` and every other key gives
      what it gave before. */
  lemma PutLookup(d: Dict, k: Key, v: Entry)
    requires UniqueKeys(d)
    ensures forall j :: Lookup(Put(d, k, v), j) == if j == k then Some(v) else Lookup(d, j)
  {
    var r := Put(d, k, v);
    var i := Find(d, k);
    var p := if i.Some? then i.value else |d|;
    assert r[p] == (k, v);
    FindUnique(r, k, p);
    forall j | j != k
      ensures Lookup(r, j) == Lookup(d, j)
    {
      var f := Find(d, j);
      if f.Some? {
        FindUnique(r, j, f.value);
      }
    }
  }

  /** After `del d[k]`, `k` is gone and every other key gives what it gave
      before. */
  lemma DeleteLookup(d: Dict, k: Key)
    requires UniqueKeys(d)
    ensures forall j :: Lookup(Delete(d, k), j) == if j == k then None else Lookup(d, j)
  {
    var r := Delete(d, k);
    var fk := Find(d, k);
    if fk.Some? {
      var i := fk.value;
      assert forall q :: 0 <= q < |r| ==> r[q] == d[if q < i then q else q + 1];
      forall j | j != k
        ensures Lookup(r, j) == Lookup(d, j)
      {
        var f := Find(d, j);
        if f.Some? {
          var p := if f.value < i then f.value else f.value - 1;
          assert r[p] == d[f.value];
          FindUnique(r, j, p);
        } else {
          assert forall q :: 0 <= q < |r| ==> r[q].0 != j;
        }
      }
    }
  }

  /** A server's cache as `_init_server_cache` sets it up: the responder
      first, under the key `'responder'`. */
  const Opened: Dict := [(ResponderKey, Responder)]

  /** Every server cache in the registry starts with its responder, holds
      buffers under distinct buffer-number keys after it, and holds at least
      one buffer: `_uncache` drops the cache once only the responder is left. */
  ghost predicate WellFormed(d: Dict) {
    && |d| >= 2
    && d[0] == (ResponderKey, Responder)
    && UniqueKeys(d)
    && forall i :: 1 <= i < |d| ==> d[i].0.Bufnum? && d[i].1.Cached?
  }

  /** The entry a registry holds under key `k` of server `s`'s cache. */
  function At(m: map<Server, Dict>, s: Server, k: Key): Option<Entry> {
    if s in m then Lookup(m[s], k) else None
  }

  /** The `/b_info` requests a buffer sends and the `/b_free` it sends when
      freed. */
  datatype Msg = BQuery(bufnum: Option<int>) | BFree(bufnum: Option<int>)

  /** The registry `Buffer._server_caches`. */
  class Caches {
    var caches: map<Server, Dict>

    ghost predicate Valid()
      reads this
    {
      forall s :: s in caches ==> WellFormed(caches[s])
    }

    constructor ()
      ensures Valid() && caches == map[]
    {
      caches := map[];
    }

    /** `cached_buffer_at(server, bufnum)`: the entry under the key, `None`
        when the server has no cache or the key is absent. */
    function CachedBufferAt(s: Server, k: Key): (r: Option<Entry>)
      reads this
      ensures r.Some? ==> s in caches && (k, r.value) in caches[s]
      ensures r.None? <==> s !in caches || forall i :: 0 <= i < |caches[s]| ==> caches[s][i].0 != k
    {
      At(caches, s, k)
    }

    /** The cache `_cache` writes into: the server's existing one, or a new
        one holding only the responder. */
    function CacheOf(s: Server): Dict
      reads this
    {
      if s in caches then caches[s] else Opened
    }

    /** `_cache`: opens the server's cache if needed, then files the buffer
        under its number. Every other buffer lookup is unchanged. */
    method Cache(buf: Buffer)
      requires Valid()
      modifies this
      ensures Valid()
      ensures caches == old(caches)[buf.server := Put(old(CacheOf(buf.server)), Bufnum(buf.bufnum), Cached(buf))]
      ensures CachedBufferAt(buf.server, Bufnum(buf.bufnum)) == Some(Cached(buf))
      ensures forall s, k :: k != ResponderKey && (s != buf.server || k != Bufnum(buf.bufnum)) ==>
        At(caches, s, k) == At(old(caches), s, k)
    {
      var k := Bufnum(buf.bufnum);
      if buf.server !in caches {
        caches := caches[buf.server := Opened];
      }
      var d := caches[buf.server];
      assert UniqueKeys(d);
      PutLookup(d, k, Cached(buf));
      caches := caches[buf.server := Put(d, k, Cached(buf))];
      CacheStaysWellFormed(d, k, Cached(buf));
    }

    /** `_uncache`: removes the buffer's key; when only the responder is left
        the server's cache is cleared. A missing server or key is ignored.
        Every other buffer lookup is unchanged. */
    method Uncache(buf: Buffer)
      requires Valid()
      modifies this
      ensures Valid()
      ensures var s, k := buf.server, Bufnum(buf.bufnum);
        caches == if old(CachedBufferAt(s, k)).None? then old(caches)
                  else if |Delete(old(caches[s]), k)| == 1 then old(caches) - {s}
                  else old(caches)[s := Delete(old(caches[s]), k)]
      ensures CachedBufferAt(buf.server, Bufnum(buf.bufnum)) == None
      ensures forall s, k :: k != ResponderKey && (s != buf.server || k != Bufnum(buf.bufnum)) ==>
        At(caches, s, k) == At(old(caches), s, k)
    {
      var s, k := buf.server, Bufnum(buf.bufnum);
      if s in caches && Lookup(caches[s], k).Some? {
        var d := caches[s];
        DeleteLookup(d, k);
        var rest := Delete(d, k);
        UncacheStaysWellFormed(d, k);
        caches := caches[s := rest];
        if |rest| == 1 {
          ClearServerCaches(s);
        }
      }
    }

    /** `_clear_server_caches`: frees the responder and drops the server's
        cache; a server without one is ignored. */
    method ClearServerCaches(s: Server)
      requires forall t :: t in caches && t != s ==> WellFormed(caches[t])
      requires s in caches ==> |caches[s]| >= 1 && caches[s][0] == (ResponderKey, Responder) && UniqueKeys(caches[s])
      modifies this
      ensures Valid()
      ensures caches == old(caches) - {s}
      ensures forall k :: CachedBufferAt(s, k) == None
    {
      if s in caches {
        FindUnique(caches[s], ResponderKey, 0);
      }
      if s in caches && Lookup(caches[s], ResponderKey).Some? {
        caches := caches - {s};
      }
    }

    /** The buffer an incoming `/b_info` for buffer number `n` updates. */
    function InfoTarget(s: Server, n: int): set<Buffer>
      reads this
    {
      var e := CachedBufferAt(s, Bufnum(Some(n)));
      if e.Some? && e.value.Cached? then {e.value.buffer} else {}
    }

    /** The server's `/b_info` responder, while its cache exists: the cached
        buffer with the reported number takes the reported frames, channels
        and sample rate, and its pending `do_on_info` action is run once and
        cleared. An unknown number is ignored. */
    method OnInfo(s: Server, n: int, frames: int, channels: int, sampleRate: real)
      returns (ran: Option<Action>)
      requires Valid()
      modifies InfoTarget(s, n)
      ensures InfoTarget(s, n) == {} ==> ran == None
      ensures forall b :: b in InfoTarget(s, n) ==>
        && b.frames == Some(frames) && b.channels == Some(channels)
        && b.sampleRate == Some(sampleRate)
        && ran == old(b.doOnInfo) && b.doOnInfo == None
        && b.bufnum == old(b.bufnum) && b.path == old(b.path) && b.startFrame == old(b.startFrame)
    {
      ran := None;
      var e := CachedBufferAt(s, Bufnum(Some(n)));
      if e.Some? && e.value.Cached? {
        var b := e.value.buffer;
        b.frames, b.channels, b.sampleRate := Some(frames), Some(channels), Some(sampleRate);
        if b.doOnInfo.Some? {
          ran := b.doOnInfo;
          b.doOnInfo := None;
        }
      }
    }

    /** `cached_buffers_do(server, func)`: the calls `func(buf, i)` made, in
        order. */
    method CachedBuffersDo(s: Server) returns (calls: seq<(Entry, nat)>)
      ensures calls == if s in caches then Visits(caches[s], |caches[s]|) else []
    {
      calls := [];
      if s in caches {
        var d := caches[s];
        for i := 0 to |d|
          invariant calls == Visits(d, i)
        {
          if d[i].0 != ResponderKey {
            calls := calls + [(d[i].1, i)];
          }
        }
      }
    }

    /** `cached_buffers_do` numbering the buffers it visits from 0, without
        counting the responder. */
    method CachedBuffersDoCounted(s: Server) returns (calls: seq<(Entry, nat)>)
      ensures calls == if s in caches then Counted(caches[s], |caches[s]|) else []
    {
      calls := [];
      if s in caches {
        var d := caches[s];
        for i := 0 to |d|
          invariant calls == Counted(d, i)
        {
          if d[i].0 != ResponderKey {
            calls := calls + [(d[i].1, |calls|)];
          }
        }
      }
    }
  }

  lemma CacheStaysWellFormed(d: Dict, k: Key, v: Entry)
    requires (d == Opened || WellFormed(d)) && k.Bufnum? && v.Cached?
    ensures WellFormed(Put(d, k, v))
  {
    var r := Put(d, k, v);
    var i := Find(d, k);
    if i.Some? {
      assert i.value != 0;
    }
    assert r[0] == d[0];
  }

  lemma UncacheStaysWellFormed(d: Dict, k: Key)
    requires WellFormed(d) && k.Bufnum? && Find(d, k).Some?
    ensures var r := Delete(d, k);
      && |r| >= 1 && r[0] == (ResponderKey, Responder)
      && (|r| >= 2 ==> WellFormed(r))
  {
    var i := Find(d, k).value;
    var r := Delete(d, k);
    assert i != 0;
    assert r[0] == d[0];
    forall j | 1 <= j < |r|
      ensures r[j].0.Bufnum? && r[j].1.Cached?
    {
      assert r[j] == d[if j < i then j else j + 1];
    }
  }

  /** The calls `cached_buffers_do` makes for the first `n` pairs: each
      buffer with its position among all the pairs, the responder included. */
  function Visits(d: Dict, n: nat): (r: seq<(Entry, nat)>)
    requires n <= |d|
    ensures |r| <= n
    ensures forall j :: 0 <= j < |r| ==> r[j].1 < n
  {
    if n == 0 then []
    else Visits(d, n - 1) + (if d[n - 1].0 == ResponderKey then [] else [(d[n - 1].1, n - 1)])
  }

  /** The same calls numbered by how many buffers came before. */
  function Counted(d: Dict, n: nat): seq<(Entry, nat)>
    requires n <= |d|
  {
    if n == 0 then []
    else
      var prev := Counted(d, n - 1);
      prev + (if d[n - 1].0 == ResponderKey then [] else [(d[n - 1].1, |prev|)])
  }

  /** A call `func(e, i)` hands over the buffer at position `i`, before `n`. */
  ghost predicate IsVisit(d: Dict, n: nat, call: (Entry, nat)) {
    call.1 < n <= |d| && d[call.1].0 != ResponderKey && d[call.1].1 == call.0
  }

  /** `cached_buffers_do` only hands over buffers, each with its position in
      the dict. */
  lemma {:induction false} VisitsSound(d: Dict, n: nat)
    requires n <= |d|
    ensures forall j :: 0 <= j < |Visits(d, n)| ==> IsVisit(d, n, Visits(d, n)[j])
  {
    if n > 0 {
      VisitsSound(d, n - 1);
      var prev := Visits(d, n - 1);
      var cur := Visits(d, n);
      forall j | 0 <= j < |cur|
        ensures IsVisit(d, n, cur[j])
      {
        if j < |prev| {
          assert cur[j] == prev[j] && IsVisit(d, n - 1, prev[j]);
        }
      }
    }
  }

  /** ... in insertion order, so none twice ... */
  lemma {:induction false} VisitsOrdered(d: Dict, n: nat)
    requires n <= |d|
    ensures forall a, b :: 0 <= a < b < |Visits(d, n)| ==> Visits(d, n)[a].1 < Visits(d, n)[b].1
  {
    if n > 0 {
      VisitsOrdered(d, n - 1);
      VisitsSound(d, n - 1);
      var prev := Visits(d, n - 1);
      var cur := Visits(d, n);
      forall a, b | 0 <= a < b < |cur|
        ensures cur[a].1 < cur[b].1
      {
        assert cur[a] == prev[a] && IsVisit(d, n - 1, prev[a]);
        if b < |prev| {
          assert cur[b] == prev[b];
        }
      }
    }
  }

  /** Some call hands over entry `e` with number `i`. */
  ghost predicate Visited(calls: seq<(Entry, nat)>, e: Entry, i: nat) {
    exists j :: 0 <= j < |calls| && calls[j] == (e, i)
  }

  /** ... and skips none. */
  lemma {:induction false} VisitsComplete(d: Dict, n: nat)
    requires n <= |d|
    ensures forall i: nat :: i < n && d[i].0 != ResponderKey ==> Visited(Visits(d, n), d[i].1, i)
  {
    if n > 0 {
      VisitsComplete(d, n - 1);
      var prev := Visits(d, n - 1);
      var cur := Visits(d, n);
      forall i: nat | i < n && d[i].0 != ResponderKey
        ensures Visited(cur, d[i].1, i)
      {
        if i < n - 1 {
          assert Visited(prev, d[i].1, i);
          var j :| 0 <= j < |prev| && prev[j] == (d[i].1, i);
          assert cur[j] == prev[j];
        } else {
          assert cur[|prev|] == (d[i].1, i);
        }
      }
    }
  }

  /** The corrected numbering visits the same buffers in the same order,
      numbered 0, 1, 2, ... */
  lemma {:induction false} CountedSpec(d: Dict, n: nat)
    requires n <= |d|
    ensures |Counted(d, n)| == |Visits(d, n)|
    ensures forall j :: 0 <= j < |Counted(d, n)| ==>
      Counted(d, n)[j] == (Visits(d, n)[j].0, j)
  {
    if n > 0 {
      CountedSpec(d, n - 1);
    }
  }

  /** With one cached buffer, `cached_buffers_do` numbers it 1, not 0: the
      responder, which is never visited, takes position 0. */
  lemma VisitsSkipsZero(b: Buffer)
    ensures Visits(Opened + [(Bufnum(Some(0)), Cached(b))], 2) == [(Cached(b), 1)]
  {
    var d := Opened + [(Bufnum(Some(0)), Cached(b))];
    assert Visits(d, 1) == [];
  }

  /** A buffer object (`Buffer`): the fields the client keeps about one
      server buffer. */
  class Buffer {
    const server: Server
    var bufnum: Option<int>
    var frames: Option<int>
    var channels: Option<int>
    var sampleRate: Option<real>
    var path: Option<string>
    var startFrame: Option<int>
    var doOnInfo: Option<Action>

    /** `Buffer(...)` with an already allocated number: the fields take the
        given values and, by default, the buffer is cached. */
    constructor (caches: Caches, server: Server, bufnum: int, frames: Option<int>,
                 channels: Option<int>, sampleRate: Option<real>, cache: bool)
      requires caches.Valid()
      modifies caches
      ensures this.server == server && this.bufnum == Some(bufnum)
      ensures this.frames == frames && this.channels == channels && this.sampleRate == sampleRate
      ensures path == None && startFrame == None && doOnInfo == None
      ensures caches.Valid()
      ensures cache ==> caches.CachedBufferAt(server, Bufnum(Some(bufnum))) == Some(Cached(this))
      ensures cache ==> (caches.caches ==
        old(caches.caches)[server := Put(old(caches.CacheOf(server)), Bufnum(Some(bufnum)), Cached(this))])
      ensures forall s, k :: k != ResponderKey && (s != server || k != Bufnum(Some(bufnum))) ==>
        At(caches.caches, s, k) == At(old(caches.caches), s, k)
      ensures !cache ==> caches.caches == old(caches.caches)
    {
      this.server := server;
      this.bufnum := Some(bufnum);
      this.frames := frames;
      this.channels := channels;
      this.sampleRate := sampleRate;
      path := None;
      startFrame := None;
      doOnInfo := None;
      new;
      if cache {
        caches.Cache(this);
      }
    }

    /** The message of `BufferAlreadyFreed(method)`. */
    static function FreedMessage(command: string): string {
      "'" + command + "' called"
    }

    /** The check every server command (`write`, `zero`, `set`, `setn`,
        `get`, `getn`, `fill`, `normalize`, `gen`, `sine1`, `sine2`, `sine3`,
        `cheby`, `copy_data`, `close`, `query`, `prepare_partconv`) makes
        first: a freed buffer raises `BufferAlreadyFreed` naming the command,
        a live one goes on with its number. */
    function Guard(command: string): (r: Result<int, BufferError>)
      reads this
      ensures r.Err? <==> bufnum.None?
      ensures r.Ok? ==> bufnum == Some(r.value)
      ensures r.Err? ==> r.error == AlreadyFreed(FreedMessage(command))
    {
      if bufnum.None? then Err(AlreadyFreed(FreedMessage(command))) else Ok(bufnum.value)
    }

    /** `free`: a second free only warns. The buffer leaves the cache, every
        field but the server and the pending action is reset, and `/b_free`
        goes out with the old number; afterwards every command is refused. */
    method Free(caches: Caches) returns (msg: Msg, warned: bool)
      requires caches.Valid()
      modifies this, caches
      ensures warned <==> old(bufnum).None?
      ensures msg == BFree(old(bufnum))
      ensures bufnum == None && frames == None && channels == None
      ensures sampleRate == None && path == None && startFrame == None
      ensures doOnInfo == old(doOnInfo)
      ensures forall c :: Guard(c) == Err(AlreadyFreed(FreedMessage(c)))
      ensures caches.Valid()
      ensures caches.CachedBufferAt(server, Bufnum(old(bufnum))) == None
      ensures var k := Bufnum(old(bufnum));
        caches.caches == if old(caches.CachedBufferAt(server, k)).None? then old(caches.caches)
                         else if |Delete(old(caches.caches[server]), k)| == 1 then old(caches.caches) - {server}
                         else old(caches.caches)[server := Delete(old(caches.caches[server]), k)]
      ensures forall s, k :: k != ResponderKey && (s != server || k != Bufnum(old(bufnum))) ==>
        At(caches.caches, s, k) == At(old(caches.caches), s, k)
    {
      warned := bufnum.None?;
      caches.Uncache(this);
      msg := BFree(bufnum);
      bufnum, frames, channels := None, None, None;
      sampleRate, path, startFrame := None, None, None;
    }

    /** `update_info(action)`: caches the buffer (even a freed one), records
        the action for the responder and asks the server with `/b_query`. */
    method UpdateInfo(caches: Caches, action: Action) returns (msg: Msg)
      requires caches.Valid()
      modifies this, caches
      ensures caches.Valid()
      ensures caches.CachedBufferAt(server, Bufnum(bufnum)) == Some(Cached(this))
      ensures caches.caches ==
        old(caches.caches)[server := Put(old(caches.CacheOf(server)), Bufnum(bufnum), Cached(this))]
      ensures forall s, k :: k != ResponderKey && (s != server || k != Bufnum(bufnum)) ==>
        At(caches.caches, s, k) == At(old(caches.caches), s, k)
      ensures doOnInfo == Some(action) && msg == BQuery(bufnum)
      ensures bufnum == old(bufnum) && frames == old(frames) && channels == old(channels)
      ensures sampleRate == old(sampleRate) && path == old(path) && startFrame == old(startFrame)
    {
      caches.Cache(this);
      doOnInfo := Some(action);
      msg := BQuery(bufnum);
    }
  }

  /** After `update_info`, the server's reply updates the buffer and runs the
      action; a repeated reply updates it again but runs nothing. */
  method InfoRunsActionOnce(caches: Caches, buf: Buffer, action: Action, n: int,
                            frames: int, channels: int, sampleRate: real)
    returns (first: Option<Action>, second: Option<Action>)
    requires caches.Valid() && buf.bufnum == Some(n)
    modifies caches, buf
    ensures first == Some(action) && second == None
    ensures buf.frames == Some(frames) && buf.channels == Some(channels)
    ensures buf.sampleRate == Some(sampleRate) && buf.doOnInfo == None
  {
    var _ := buf.UpdateInfo(caches, action);
    assert caches.InfoTarget(buf.server, n) == {buf};
    first := caches.OnInfo(buf.server, n, frames, channels, sampleRate);
    second := caches.OnInfo(buf.server, n, frames, channels, sampleRate);
  }
}
