/** GetScanResultsCommand: cached scan results are fetched over several requests, each answered by any
    number of replies whose bytes can be anything. */
module ScanCache {
  import opened Assoc
  import opened Netlink
  import Hal

  const SUCCESS: int := 0
  const MAX_REQUESTS: nat := 10

  const SCAN_RESULTS_COMPLETE: nat := 21
  const NUM_OF_RESULTS: nat := 30
  const SCAN_RESULTS: nat := 32
  const SCAN_ID: nat := 33
  const SCAN_FLAGS: nat := 34
  const CH_BUCKET_BITMASK: nat := 36

  /** The size of a wifi_scan_result, by which an attribute is measured, and the size of the
      wifi_gscan_result_t that are taken out of it; the first and the number of records in a slot come from a
      header that is not part of the repository. What lies in memory beyond the end of an attribute, and the
      getters. */
  datatype Env = Env(resultSize: nat, recordSize: nat, maxPerScan: nat,
                     beyond: (seq<byte>, nat) -> byte, get: Getters) {
    predicate Valid() {
      resultSize > 0
    }

    function At(p: seq<byte>, i: nat): byte {
      if i < |p| then p[i] else beyond(p, i)
    }
  }

  datatype Scan = Scan(scanId: int, flags: int, numResults: int, bucketsScanned: int, records: seq<seq<byte>>)

  /** What has been retrieved so far. */
  datatype Cache = Cache(scans: seq<Scan>, completed: int)

  /** The variables of one group of attributes. */
  datatype Group = Group(scanId: int, flags: int, num: int, mask: int)

  datatype Progress = Progress(cache: Cache, group: Group, stopped: bool)

  function Min(a: int, b: int): int {
    if a < b then a else b
  }

  /** Record j of a flat array. */
  function Record(env: Env, p: seq<byte>, j: nat): (r: seq<byte>)
    ensures |r| == env.recordSize
  {
    seq<byte>(env.recordSize, i requires 0 <= i < env.recordSize => env.At(p, j * env.recordSize + i))
  }

  /** The first n records; none for a negative number. */
  function Records(env: Env, p: seq<byte>, n: int): (r: seq<seq<byte>>)
    ensures |r| == if n > 0 then n else 0
  {
    seq(if n > 0 then n else 0, j requires 0 <= j => Record(env, p, j))
  }

  /** How many records are taken from a result attribute; negative when the driver's count was. */
  function Taken(env: Env, num: int, p: seq<byte>): int
    requires env.Valid()
  {
    Min(Min(num, |p| / env.resultSize), env.maxPerScan)
  }

  function Stored(env: Env, group: Group, p: seq<byte>): Scan
    requires env.Valid()
  {
    var n := Taken(env, group.num, p);
    Scan(group.scanId, group.flags, n, group.mask, Records(env, p, n))
  }

  function InnerStep(env: Env, max: int, s: Progress, item: Item): Progress
    requires env.Valid()
  {
    if s.stopped then s
    else if item.ty == SCAN_ID then s.(group := s.group.(scanId := env.get.Get32(item.payload)))
    else if item.ty == SCAN_FLAGS then s.(group := s.group.(flags := env.get.Get8(item.payload)))
    else if item.ty == NUM_OF_RESULTS then s.(group := s.group.(num := env.get.Get32(item.payload)))
    else if item.ty == CH_BUCKET_BITMASK then s.(group := s.group.(mask := env.get.Get32(item.payload)))
    else if item.ty == SCAN_RESULTS && s.group.num != 0 then
      if |s.cache.scans| >= max then s.(stopped := true)
      else s.(cache := s.cache.(scans := s.cache.scans + [Stored(env, s.group, item.payload)]),
              group := s.group.(num := Taken(env, s.group.num, item.payload)))
    else s
  }

  function Inner(env: Env, max: int, s: Progress, items: seq<Item>): Progress
    requires env.Valid()
    decreases |items|
  {
    if items == [] then s else Inner(env, max, InnerStep(env, max, s, items[0]), items[1..])
  }

  function OuterStep(env: Env, max: int, cache: Cache, item: Item): Cache
    requires env.Valid()
  {
    if item.ty == SCAN_RESULTS_COMPLETE then cache.(completed := env.get.Get8(item.payload))
    else if NUM_OF_RESULTS <= item.ty <= CH_BUCKET_BITMASK then
      Inner(env, max, Progress(cache, Group(0, 0, 0, 0), false), Walk(item.payload, 0)).cache
    else cache
  }

  function Outer(env: Env, max: int, cache: Cache, items: seq<Item>): Cache
    requires env.Valid()
    decreases |items|
  {
    if items == [] then cache else Outer(env, max, OuterStep(env, max, cache, items[0]), items[1..])
  }

  /** A reply: its command and the vendor data in it, if any. */
  datatype Reply = Reply(cmd: int, vendorData: Option<seq<byte>>)

  /** The vendor data is itself taken for an attribute, by its own length and whatever lies behind it. */
  function InnerLength(env: Env, data: seq<byte>): nat {
    env.At(data, 0) as int + 0x100 * env.At(data, 1) as int
  }

  function Unwrapped(env: Env, data: seq<byte>): (p: seq<byte>)
    ensures |p| == if InnerLength(env, data) < NLA_HDRLEN then 0 else InnerLength(env, data) - NLA_HDRLEN
  {
    var n := InnerLength(env, data);
    seq<byte>(if n < NLA_HDRLEN then 0 else n - NLA_HDRLEN, i requires 0 <= i => env.At(data, NLA_HDRLEN + i))
  }

  /** A reply with something in it that is looked at. */
  predicate Answers(reply: Reply) {
    reply.cmd == Hal.NL80211_CMD_VENDOR && reply.vendorData.Some? && reply.vendorData.value != []
  }

  function AfterReply(env: Env, max: int, cache: Cache, reply: Reply): Cache
    requires env.Valid()
  {
    if !Answers(reply) then cache else Outer(env, max, cache, Walk(Unwrapped(env, reply.vendorData.value), 0))
  }

  function AfterReplies(env: Env, max: int, cache: Cache, replies: seq<Reply>): Cache
    requires env.Valid()
  {
    if replies == [] then cache
    else AfterReply(env, max, AfterReplies(env, max, cache, replies[..|replies| - 1]), replies[|replies| - 1])
  }

  /** What happens at one request: building it, the replies, and the result of the exchange. */
  datatype Exchange = Exchange(created: int, replies: seq<Reply>, response: int)

  /** The result, what is in the cache then, and how many scans each request asked for. */
  datatype Execution = Execution(result: int, cache: Cache, asked: seq<int>)

  function Executed(env: Env, max: int, cache: Cache, net: nat -> Exchange, i: nat): Execution
    requires env.Valid()
    decreases MAX_REQUESTS - i
  {
    if i >= MAX_REQUESTS || |cache.scans| >= max then Execution(SUCCESS, cache, [])
    else
      var e := net(i);
      if e.created < 0 then Execution(e.created, cache, [])
      else
        var n := max - |cache.scans|;
        var after := AfterReplies(env, max, cache, e.replies);
        if e.response != SUCCESS then Execution(e.response, after, [n])
        else if |after.scans| == |cache.scans| || after.completed != 0 then Execution(SUCCESS, after, [n])
        else
          var rest := Executed(env, max, after, net, i + 1);
          rest.(asked := [n] + rest.asked)
  }

  class GetScanResultsCommand {
    const env: Env
    const mMax: int
    /** The caller's array, one slot for each scan it asked for. */
    const mScans: array<Scan>
    var mRetrieved: nat
    var mCompleted: int

    ghost predicate Valid()
      reads this
    {
      env.Valid() && mRetrieved <= mScans.Length && mMax <= mScans.Length
    }

    ghost function Cached(): Cache
      reads this, mScans
      requires Valid()
    {
      Cache(mScans[..mRetrieved], mCompleted)
    }

    constructor (env: Env, results: array<Scan>, max: int)
      requires env.Valid() && max <= results.Length
      ensures Valid() && this.env == env && mScans == results && mMax == max && Cached() == Cache([], 0)
    {
      this.env, mScans, mMax, mRetrieved, mCompleted := env, results, max, 0, 0;
    }

    /** The loop over one group of attributes. Slots beyond the ones it fills are left alone. */
    method HandleGroup(payload: seq<byte>)
      requires Valid()
      modifies this`mRetrieved, mScans
      ensures Valid() && mCompleted == old(mCompleted) && mRetrieved >= old(mRetrieved)
      ensures Cached() == Inner(env, mMax, Progress(old(Cached()), Group(0, 0, 0, 0), false), Walk(payload, 0)).cache
      ensures forall k :: mRetrieved <= k < mScans.Length ==> mScans[k] == old(mScans[k])
    {
      var scanId, flags, num, mask := 0, 0, 0, 0;
      ghost var start := Progress(Cached(), Group(0, 0, 0, 0), false);
      var it := new NlIterator(payload);
      var more := it.HasNext();
      while more
        invariant it.Valid() && fresh(it) && Valid() && mCompleted == old(mCompleted) && mRetrieved >= old(mRetrieved)
        invariant more <==> it.Rest() != []
        invariant Inner(env, mMax, start, Walk(payload, 0))
               == Inner(env, mMax, Progress(Cached(), Group(scanId, flags, num, mask), false), it.Rest())
        invariant forall k :: mRetrieved <= k < mScans.Length ==> mScans[k] == old(mScans[k])
        decreases it.rem
      {
        var item := it.Get();
        ghost var before := Progress(Cached(), Group(scanId, flags, num, mask), false);
        if item.ty == SCAN_ID {
          scanId := env.get.Get32(item.payload);
        } else if item.ty == SCAN_FLAGS {
          flags := env.get.Get8(item.payload);
        } else if item.ty == NUM_OF_RESULTS {
          num := env.get.Get32(item.payload);
        } else if item.ty == CH_BUCKET_BITMASK {
          mask := env.get.Get32(item.payload);
        } else if item.ty == SCAN_RESULTS && num != 0 {
          if mRetrieved >= mMax {
            StoppedInner(env, mMax, before.(stopped := true), it.Rest()[1..]);
            break;
          }
          Store(scanId, flags, num, mask, item.payload);
          num := Taken(env, num, item.payload);
        }
        assert Progress(Cached(), Group(scanId, flags, num, mask), false) == InnerStep(env, mMax, before, item);
        it.Next();
        more := it.HasNext();
      }
    }

    /** The next slot is filled and counted. */
    method Store(scanId: int, flags: int, num: int, mask: int, p: seq<byte>)
      requires Valid() && mRetrieved < mMax
      modifies this`mRetrieved, mScans
      ensures Valid() && mCompleted == old(mCompleted) && mRetrieved == old(mRetrieved) + 1
      ensures Cached()
           == old(Cached()).(scans := old(Cached()).scans + [Stored(env, Group(scanId, flags, num, mask), p)])
      ensures forall k :: mRetrieved <= k < mScans.Length ==> mScans[k] == old(mScans[k])
    {
      var n, records := Copy(num, p);
      mScans[mRetrieved] := Scan(scanId, flags, n, mask, records);
      mRetrieved := mRetrieved + 1;
    }

    method Copy(num: int, p: seq<byte>) returns (n: int, records: seq<seq<byte>>)
      requires env.Valid()
      ensures n == Taken(env, num, p) && records == Records(env, p, n)
    {
      n := Min(num, |p| / env.resultSize);
      n := Min(n, env.maxPerScan);
      records := [];
      var i := 0;
      while i < n
        invariant 0 <= i && (i <= n || i == 0) && records == Records(env, p, i)
      {
        records := records + [Record(env, p, i)];
        i := i + 1;
      }
    }

    method HandleResponse(reply: Reply)
      requires Valid()
      modifies this, mScans
      ensures Valid() && Cached() == AfterReply(env, mMax, old(Cached()), reply) && mRetrieved >= old(mRetrieved)
      ensures forall k :: mRetrieved <= k < mScans.Length ==> mScans[k] == old(mScans[k])
    {
      if reply.cmd != Hal.NL80211_CMD_VENDOR {
        return;
      }
      if reply.vendorData == None || |reply.vendorData.value| == 0 {
        return;
      }
      ghost var start := Cached();
      var payload := Unwrapped(env, reply.vendorData.value);
      var it := new NlIterator(payload);
      var more := it.HasNext();
      while more
        invariant it.Valid() && fresh(it) && Valid() && mRetrieved >= old(mRetrieved)
        invariant more <==> it.Rest() != []
        invariant Outer(env, mMax, start, Walk(payload, 0)) == Outer(env, mMax, Cached(), it.Rest())
        invariant forall k :: mRetrieved <= k < mScans.Length ==> mScans[k] == old(mScans[k])
        decreases it.rem
      {
        var item := it.Get();
        if item.ty == SCAN_RESULTS_COMPLETE {
          mCompleted := env.get.Get8(item.payload);
        } else if NUM_OF_RESULTS <= item.ty <= CH_BUCKET_BITMASK {
          HandleGroup(item.payload);
        }
        it.Next();
        more := it.HasNext();
      }
    }

    /** The replies that arrive while requestResponse waits. */
    method HandleReplies(replies: seq<Reply>)
      requires Valid()
      modifies this, mScans
      ensures Valid() && Cached() == AfterReplies(env, mMax, old(Cached()), replies)
    {
      for j := 0 to |replies|
        invariant Valid() && Cached() == AfterReplies(env, mMax, old(Cached()), replies[..j])
      {
        assert replies[..j + 1][..j] == replies[..j];
        HandleResponse(replies[j]);
      }
      assert replies[..|replies|] == replies;
    }

    /** execute(): *mNum is written on success only. */
    method Execute(net: nat -> Exchange) returns (result: int, num: Option<nat>, asked: seq<int>)
      requires Valid()
      modifies this, mScans
      ensures Valid()
      ensures Executed(env, mMax, old(Cached()), net, 0) == Execution(result, Cached(), asked)
      ensures num == if result == SUCCESS then Some(mRetrieved) else None
    {
      hide AfterReplies, Executed;
      asked := [];
      ghost var whole := Executed(env, mMax, Cached(), net, 0);
      assert whole == Preceded([], whole);
      var i := 0;
      while i < MAX_REQUESTS && mRetrieved < mMax
        invariant 0 <= i <= MAX_REQUESTS && Valid()
        invariant whole == Preceded(asked, Executed(env, mMax, Cached(), net, i))
      {
        ExecutedStep(env, mMax, Cached(), net, i, asked);
        var exchange := net(i);
        if exchange.created < 0 {
          return exchange.created, None, asked;
        }
        var previous := mRetrieved;
        asked := asked + [mMax - mRetrieved];
        HandleReplies(exchange.replies);
        if exchange.response != SUCCESS {
          return exchange.response, None, asked;
        }
        if mRetrieved == previous || mCompleted != 0 {
          return SUCCESS, Some(mRetrieved), asked;
        }
        i := i + 1;
      }
      ExecutedStep(env, mMax, Cached(), net, i, asked);
      result, num := SUCCESS, Some(mRetrieved);
    }
  }

  /** The same execution after the requests in asked. */
  ghost function Preceded(asked: seq<int>, e: Execution): Execution {
    e.(asked := asked + e.asked)
  }

  lemma ExecutedStep(env: Env, max: int, cache: Cache, net: nat -> Exchange, i: nat, asked: seq<int>)
    requires env.Valid()
    ensures var whole := Preceded(asked, Executed(env, max, cache, net, i));
            var n := max - |cache.scans|;
            var after := AfterReplies(env, max, cache, net(i).replies);
            if i >= MAX_REQUESTS || n <= 0 then whole == Execution(SUCCESS, cache, asked)
            else if net(i).created < 0 then whole == Execution(net(i).created, cache, asked)
            else if net(i).response != SUCCESS then whole == Execution(net(i).response, after, asked + [n])
            else if |after.scans| == |cache.scans| || after.completed != 0 then
              whole == Execution(SUCCESS, after, asked + [n])
            else whole == Preceded(asked + [n], Executed(env, max, after, net, i + 1))
  {
    hide AfterReplies;
    assert asked + [] == asked;
    var n := max - |cache.scans|;
    var after := AfterReplies(env, max, cache, net(i).replies);
    var rest := Executed(env, max, after, net, i + 1);
    assert asked + ([n] + rest.asked) == asked + [n] + rest.asked;
  }

  lemma {:induction false} StoppedInner(env: Env, max: int, s: Progress, items: seq<Item>)
    requires env.Valid() && s.stopped
    ensures Inner(env, max, s, items) == s
    decreases |items|
  {
    if items != [] {
      StoppedInner(env, max, s, items[1..]);
    }
  }

  // ----- the unwrapping

  lemma UnwrappedAt(env: Env, data: seq<byte>, i: nat)
    requires i < |Unwrapped(env, data)|
    ensures Unwrapped(env, data)[i] == env.At(data, NLA_HDRLEN + i)
  {
  }

  /** Data that begins with a length that is right is unwrapped to what follows the header. */
  lemma UnwrappedInside(env: Env, data: seq<byte>)
    requires |data| >= 2 && NLA_HDRLEN <= U16(data, 0) <= |data|
    ensures Unwrapped(env, data) == data[NLA_HDRLEN..U16(data, 0)]
  {
    forall i | 0 <= i < |Unwrapped(env, data)| ensures Unwrapped(env, data)[i] == data[NLA_HDRLEN..U16(data, 0)][i] {
      UnwrappedAt(env, data, i);
    }
  }

  /** What a reply is taken to hold depends on memory behind it if and only if it is too short for a length, or
      its length says more than there is. */
  lemma UnwrappingReadsBeyond(env: Env, data: seq<byte>)
    requires data != []
    ensures (exists other: (seq<byte>, nat) -> byte :: Unwrapped(env.(beyond := other), data) != Unwrapped(env, data))
            <==> |data| == 1 || (NLA_HDRLEN < U16(data, 0) && |data| < U16(data, 0))
  {
    var zero: (seq<byte>, nat) -> byte := (_, _) => 0;
    var one: (seq<byte>, nat) -> byte := (_, _) => 1;
    var a, b := Unwrapped(env.(beyond := zero), data), Unwrapped(env.(beyond := one), data);
    if |data| == 1 {
      assert InnerLength(env.(beyond := zero), data) == data[0] as int;
      assert InnerLength(env.(beyond := one), data) == 0x100 + data[0] as int;
      assert |a| != |b|;
      assert a != Unwrapped(env, data) || b != Unwrapped(env, data);
    } else if NLA_HDRLEN < U16(data, 0) && |data| < U16(data, 0) {
      var last := U16(data, 0) - NLA_HDRLEN - 1;
      UnwrappedAt(env.(beyond := zero), data, last);
      UnwrappedAt(env.(beyond := one), data, last);
      assert a[last] != b[last];
      assert a != Unwrapped(env, data) || b != Unwrapped(env, data);
    } else {
      forall other: (seq<byte>, nat) -> byte ensures Unwrapped(env.(beyond := other), data) == Unwrapped(env, data) {
        UnwrappedSame(env, other, data);
      }
    }
  }

  lemma UnwrappedSame(env: Env, other: (seq<byte>, nat) -> byte, data: seq<byte>)
    requires |data| >= 2 && (U16(data, 0) <= NLA_HDRLEN || U16(data, 0) <= |data|)
    ensures Unwrapped(env.(beyond := other), data) == Unwrapped(env, data)
  {
    var a, b := Unwrapped(env.(beyond := other), data), Unwrapped(env, data);
    forall i | 0 <= i < |a| ensures a[i] == b[i] {
      UnwrappedAt(env.(beyond := other), data, i);
      UnwrappedAt(env, data, i);
    }
  }

  // ----- what holds over any replies

  /** The later cache holds everything the earlier one did, in place, and no more than the caller asked for. */
  ghost predicate Extends(env: Env, max: int, before: Cache, after: Cache) {
    before.scans <= after.scans
    && (|after.scans| <= max || after.scans == before.scans)
    && forall i :: |before.scans| <= i < |after.scans| ==> Bounded(env, after.scans[i])
  }

  /** A stored count is at most the limit per scan, and counts the whole records stored. */
  ghost predicate Bounded(env: Env, s: Scan) {
    s.numResults <= env.maxPerScan
    && |s.records| == (if s.numResults > 0 then s.numResults else 0)
    && forall r :: r in s.records ==> |r| == env.recordSize
  }

  lemma MulMonotone(a: int, b: int, c: nat)
    requires a <= b
    ensures a * c <= b * c
  {
  }

  /** A record that ends inside the attribute is the stretch of its bytes at that place. */
  lemma RecordsAreSlices(env: Env, p: seq<byte>, n: nat, j: nat)
    requires j < n && j * env.recordSize + env.recordSize <= |p|
    ensures 0 <= j * env.recordSize
    ensures Records(env, p, n)[j] == p[j * env.recordSize..j * env.recordSize + env.recordSize]
  {
    MulMonotone(0, j, env.recordSize);
    var at := j * env.recordSize;
    forall i | 0 <= i < env.recordSize ensures Record(env, p, j)[i] == p[at..at + env.recordSize][i] {
      assert Record(env, p, j)[i] == env.At(p, at + i);
    }
    assert Records(env, p, n)[j] == Record(env, p, j);
  }

  /** Only bytes of the attribute are copied, whatever the driver sends, if and only if the records copied are
      no larger than the records it is measured by, or none is ever copied. */
  lemma CopiesStayInside(env: Env)
    requires env.Valid()
    ensures (forall num: int, p: seq<byte> :: Taken(env, num, p) > 0 ==> Taken(env, num, p) * env.recordSize <= |p|)
            <==> env.recordSize <= env.resultSize || env.maxPerScan == 0
  {
    if env.recordSize <= env.resultSize {
      forall num: int, p: seq<byte> | Taken(env, num, p) > 0 ensures Taken(env, num, p) * env.recordSize <= |p| {
        TakenInside(env, num, p);
      }
    } else if env.maxPerScan > 0 {
      var p := Zeros(env.resultSize);
      assert |p| / env.resultSize == 1;
      assert Taken(env, 1, p) == 1;
    }
  }

  lemma TakenInside(env: Env, num: int, p: seq<byte>)
    requires env.Valid() && env.recordSize <= env.resultSize && Taken(env, num, p) > 0
    ensures Taken(env, num, p) * env.recordSize <= |p|
  {
    var n, q := Taken(env, num, p), |p| / env.resultSize;
    assert q * env.resultSize <= |p|;
    MulMonotone(n, q, env.resultSize);
    MulMonotone(env.recordSize, env.resultSize, n);
  }

  lemma InnerStepExtends(env: Env, max: int, s: Progress, item: Item)
    requires env.Valid()
    ensures Extends(env, max, s.cache, InnerStep(env, max, s, item).cache)
  {
    var n := Taken(env, s.group.num, item.payload);
    assert forall r :: r in Records(env, item.payload, n) ==> |r| == env.recordSize;
  }

  lemma ExtendsTransitive(env: Env, max: int, a: Cache, b: Cache, c: Cache)
    requires Extends(env, max, a, b) && Extends(env, max, b, c)
    ensures Extends(env, max, a, c)
  {
    forall i | |a.scans| <= i < |c.scans| ensures Bounded(env, c.scans[i]) {
      if i < |b.scans| {
        assert c.scans[i] == b.scans[i];
      }
    }
  }

  lemma {:induction false} InnerExtends(env: Env, max: int, s: Progress, items: seq<Item>)
    requires env.Valid()
    ensures Extends(env, max, s.cache, Inner(env, max, s, items).cache)
    decreases |items|
  {
    if items != [] {
      var next := InnerStep(env, max, s, items[0]);
      InnerStepExtends(env, max, s, items[0]);
      InnerExtends(env, max, next, items[1..]);
      ExtendsTransitive(env, max, s.cache, next.cache, Inner(env, max, next, items[1..]).cache);
    }
  }

  lemma {:induction false} OuterExtends(env: Env, max: int, cache: Cache, items: seq<Item>)
    requires env.Valid()
    ensures Extends(env, max, cache, Outer(env, max, cache, items))
    decreases |items|
  {
    if items != [] {
      var next := OuterStep(env, max, cache, items[0]);
      InnerExtends(env, max, Progress(cache, Group(0, 0, 0, 0), false), Walk(items[0].payload, 0));
      OuterExtends(env, max, next, items[1..]);
      ExtendsTransitive(env, max, cache, next, Outer(env, max, next, items[1..]));
    }
  }

  /** Over any replies: the number retrieved never goes down and never passes the caller's limit, no filled
      slot is written again, and every count stored is bounded. */
  lemma {:induction false} RepliesOnlyExtend(env: Env, max: int, cache: Cache, replies: seq<Reply>)
    requires env.Valid()
    ensures Extends(env, max, cache, AfterReplies(env, max, cache, replies))
  {
    if replies != [] {
      var before, last := replies[..|replies| - 1], replies[|replies| - 1];
      RepliesOnlyExtend(env, max, cache, before);
      var mid := AfterReplies(env, max, cache, before);
      if Answers(last) {
        OuterExtends(env, max, mid, Walk(Unwrapped(env, last.vendorData.value), 0));
      }
      ExtendsTransitive(env, max, cache, mid, AfterReplies(env, max, cache, replies));
    }
  }

  /** The count stored for a result attribute is the least of what the driver said, what the attribute can
      hold and what a slot can hold; it is negative exactly when the driver's was. */
  lemma StoredCount(env: Env, group: Group, p: seq<byte>)
    requires env.Valid()
    ensures var n := Stored(env, group, p).numResults;
            n <= group.num && n <= env.maxPerScan && n * env.resultSize <= |p|
            && (n == group.num || n == env.maxPerScan || (n + 1) * env.resultSize > |p|)
            && (n < 0 <==> group.num < 0)
  {
    var q := |p| / env.resultSize;
    assert q * env.resultSize <= |p| < (q + 1) * env.resultSize;
    MulMonotone(Taken(env, group.num, p), q, env.resultSize);
  }

  /** What is in the cache once the requests from i on and before j have been answered. */
  ghost function Answered(env: Env, max: int, cache: Cache, net: nat -> Exchange, i: nat, j: nat): Cache
    requires env.Valid() && i <= j
    decreases j - i
  {
    if j == i then cache else AfterReplies(env, max, Answered(env, max, cache, net, i, j - 1), net(j - 1).replies)
  }

  lemma {:induction false} AnsweredFirst(env: Env, max: int, cache: Cache, net: nat -> Exchange, i: nat, j: nat)
    requires env.Valid() && i < j
    ensures Answered(env, max, cache, net, i, j)
         == Answered(env, max, AfterReplies(env, max, cache, net(i).replies), net, i + 1, j)
    decreases j - i
  {
    hide AfterReplies;
    if j > i + 1 {
      AnsweredFirst(env, max, cache, net, i, j - 1);
    } else {
      assert Answered(env, max, cache, net, i, i) == cache;
    }
  }

  /** Whether after request m one more may follow: its exchange succeeded, it brought at least one scan, and the
      driver has not said that there are no more. */
  ghost predicate GoesOn(env: Env, max: int, cache: Cache, net: nat -> Exchange, i: nat, m: nat)
    requires env.Valid() && i <= m
  {
    var before, after := Answered(env, max, cache, net, i, m), Answered(env, max, cache, net, i, m + 1);
    && |before.scans| < max && net(m).created >= 0
    && net(m).response == 0 && |after.scans| != |before.scans| && after.completed == 0
  }

  /** Request j is sent if and only if it is one of the first ten, a scan is missing, it could be built, and
      every request before it let the next one follow. It asks for as many scans as are missing. */
  lemma {:induction false} RequestSentWhen(env: Env, max: int, cache: Cache, net: nat -> Exchange, i: nat, j: nat)
    requires env.Valid() && i <= j
    ensures var asked, c := Executed(env, max, cache, net, i).asked, Answered(env, max, cache, net, i, j);
            && (j - i < |asked| <==> j < 10 && |c.scans| < max && net(j).created >= 0
                                     && forall m :: i <= m < j ==> GoesOn(env, max, cache, net, i, m))
            && (j - i < |asked| ==> asked[j - i] == max - |c.scans|)
    decreases j - i
  {
    hide AfterReplies;
    AnsweredOne(env, max, cache, net, i);
    if j == i {
      assert Executed(env, max, cache, net, i).asked != []
             <==> i < 10 && |cache.scans| < max && net(i).created >= 0;
    } else {
      var after, n := AfterReplies(env, max, cache, net(i).replies), i + 1;
      RequestSentWhen(env, max, after, net, n, j);
      forall m | i < m < j
        ensures GoesOn(env, max, cache, net, i, m) <==> GoesOn(env, max, after, net, n, m)
      {
        AnsweredFirst(env, max, cache, net, i, m);
        AnsweredFirst(env, max, cache, net, i, m + 1);
      }
      AnsweredFirst(env, max, cache, net, i, j);
      FirstGoesOn(env, max, cache, net, i);
      hide Executed, GoesOn;
      if GoesOn(env, max, cache, net, i, i) {
        assert (forall m :: i <= m < j ==> GoesOn(env, max, cache, net, i, m))
          <==> forall m :: n <= m < j ==> GoesOn(env, max, after, net, n, m);
      }
    }
  }

  lemma FirstGoesOn(env: Env, max: int, cache: Cache, net: nat -> Exchange, i: nat)
    requires env.Valid()
    ensures var after := AfterReplies(env, max, cache, net(i).replies);
            var asked := Executed(env, max, cache, net, i).asked;
            if GoesOn(env, max, cache, net, i, i) && i < 10
            then asked == [max - |cache.scans|] + Executed(env, max, after, net, i + 1).asked
            else |asked| <= 1
  {
    AnsweredOne(env, max, cache, net, i);
  }

  lemma AnsweredOne(env: Env, max: int, cache: Cache, net: nat -> Exchange, i: nat)
    requires env.Valid()
    ensures Answered(env, max, cache, net, i, i) == cache
    ensures Answered(env, max, cache, net, i, i + 1) == AfterReplies(env, max, cache, net(i).replies)
  {
    hide AfterReplies;
    assert Answered(env, max, cache, net, i, i) == cache;
  }

  /** What execution ends with: the cache after the last request sent, and the failure of the last exchange, or
      of building the next request when one was due, or success. */
  lemma {:induction false} ExecutionEnds(env: Env, max: int, cache: Cache, net: nat -> Exchange, i: nat)
    requires env.Valid() && i <= 10
    ensures var e := Executed(env, max, cache, net, i);
            var k := i + |e.asked|;
            && e.cache == Answered(env, max, cache, net, i, k)
            && e.result == if k > i && net(k - 1).response != 0 then net(k - 1).response
                           else if (k == i || GoesOn(env, max, cache, net, i, k - 1)) && k < 10 && |e.cache.scans| < max
                           then net(k).created else 0
    decreases 10 - i
  {
    hide AfterReplies;
    var e := Executed(env, max, cache, net, i);
    AnsweredOne(env, max, cache, net, i);
    if e.asked != [] && GoesOn(env, max, cache, net, i, i) && i < 10 {
      var after := AfterReplies(env, max, cache, net(i).replies);
      ExecutionEnds(env, max, after, net, i + 1);
      var k := i + |e.asked|;
      forall m | i < m <= k
        ensures Answered(env, max, cache, net, i, m) == Answered(env, max, after, net, i + 1, m)
      {
        AnsweredFirst(env, max, cache, net, i, m);
      }
    }
  }

  /** c is the least of n, of a slot's room, and of what the attributes hold by the size they are measured by. */
  ghost predicate Least(env: Env, n: int, items: seq<Item>, c: int)
    requires env.Valid()
  {
    && c <= n && c <= env.maxPerScan
    && (forall item :: item in items ==> c <= |item.payload| / env.resultSize)
    && (c == n || c == env.maxPerScan || exists item :: item in items && c == |item.payload| / env.resultSize)
  }

  /** The scans in a that are not in b are those that result attributes with these payloads add, n being the
      driver's count: one for each, until one holds no record or there are max. */
  ghost predicate Falls(env: Env, max: int, n: int, items: seq<Item>, b: seq<Scan>, a: seq<Scan>)
    requires env.Valid()
  {
    && b <= a && |a| <= |b| + |items| && (n == 0 ==> a == b)
    && (forall k :: |b| <= k < |a| ==> Least(env, n, items[..k + 1 - |b|], a[k].numResults))
    && (|a| == |b| + |items| || |a| >= max || (if a == b then n else a[|a| - 1].numResults) == 0)
  }

  /** Several result attributes (type 32) behind one another in a group: each fills a slot, with no more records
      than the count and than every one before it, until one holds none or the caller's array is full. */
  lemma {:induction false} CountsFall(env: Env, max: int, cache: Cache, group: Group, items: seq<Item>)
    requires env.Valid() && forall item :: item in items ==> item.ty == 32
    ensures Falls(env, max, group.num, items, cache.scans,
                  Inner(env, max, Progress(cache, group, false), items).cache.scans)
    decreases |items|
  {
    hide Stored, Taken, Least;
    var start := Progress(cache, group, false);
    if items != [] {
      assert items[0] in items;
      var next := InnerStep(env, max, start, items[0]);
      if next.stopped {
        StoppedInner(env, max, next, items[1..]);
      } else {
        CountsFall(env, max, next.cache, next.group, items[1..]);
        if group.num != 0 {
          hide Falls, Inner;
          FallsFirst(env, max, group, items, cache.scans, Inner(env, max, next, items[1..]).cache.scans);
        } else {
          assert next == start;
        }
      }
    }
  }

  lemma FallsFirst(env: Env, max: int, group: Group, items: seq<Item>, b: seq<Scan>, a: seq<Scan>)
    requires env.Valid() && items != [] && group.num != 0
    requires Falls(env, max, Taken(env, group.num, items[0].payload), items[1..],
                   b + [Stored(env, group, items[0].payload)], a)
    ensures Falls(env, max, group.num, items, b, a)
  {
    TakenIsStored(env, group, items[0].payload);
    hide Stored, Taken, Least;
    assert a[|b|] == Stored(env, group, items[0].payload);
    forall k | |b| <= k < |a| ensures Least(env, group.num, items[..k + 1 - |b|], a[k].numResults) {
      assert k > |b| ==> items[1..][..k - |b|] == items[..k + 1 - |b|][1..];
      assert k > |b| ==> k + 1 - |b + [Stored(env, group, items[0].payload)]| == k - |b|;
      LeastFirst(env, group, items[..k + 1 - |b|], a[k].numResults);
    }
  }

  lemma TakenIsStored(env: Env, group: Group, p: seq<byte>)
    requires env.Valid()
    ensures Stored(env, group, p).numResults == Taken(env, group.num, p)
  {
  }

  lemma LeastFirst(env: Env, group: Group, items: seq<Item>, c: int)
    requires env.Valid() && items != []
    ensures var n := Taken(env, group.num, items[0].payload);
            (if |items| == 1 then c == n else Least(env, n, items[1..], c)) ==> Least(env, group.num, items, c)
  {
    assert items == [items[0]] + items[1..];
  }

  /** Every request asks for what is missing, and for less than the one before; so there are at most ten,
      and at most one for each scan that was missing. */
  lemma {:induction false} RequestsMakeProgress(env: Env, max: int, cache: Cache, net: nat -> Exchange, i: nat)
    requires env.Valid() && i <= MAX_REQUESTS
    ensures var e := Executed(env, max, cache, net, i);
            && |e.asked| <= 10 - i
            && (forall j :: 0 <= j < |e.asked| ==> 0 < e.asked[j] <= max - |cache.scans|)
            && (forall j, k :: 0 <= j < k < |e.asked| ==> e.asked[j] > e.asked[k])
            && (e.asked == [] || |e.asked| <= max - |cache.scans|)
            && Extends(env, max, cache, e.cache)
    decreases MAX_REQUESTS - i
  {
    var e := Executed(env, max, cache, net, i);
    if i < MAX_REQUESTS && |cache.scans| < max && net(i).created >= 0 {
      var after := AfterReplies(env, max, cache, net(i).replies);
      RepliesOnlyExtend(env, max, cache, net(i).replies);
      if net(i).response == SUCCESS && |after.scans| != |cache.scans| && after.completed == 0 {
        RequestsMakeProgress(env, max, after, net, i + 1);
        var rest := Executed(env, max, after, net, i + 1);
        ExtendsTransitive(env, max, cache, after, rest.cache);
        assert e.asked == [max - |cache.scans|] + rest.asked;
      }
    }
  }
}
