/** What a reply that a driver builds leaves in the cache: the scans it holds, field by field. */
module ScanReply {
  import opened Assoc
  import opened Netlink
  import opened ScanCache
  import opened ScanRequest
  import Hal

  /** A scan as the driver has it, and the type of the attribute it is nested in. */
  datatype DriverScan = DriverScan(ty: nat, scanId: u32, flags: byte, mask: u32, records: seq<seq<byte>>)

  /** Its records are of the size that is copied; any type from the number of results to the bitmask will do. */
  ghost predicate Sendable(env: Env, d: DriverScan) {
    && 30 <= d.ty <= 36 && |d.records| < 0x8000_0000
    && forall r :: r in d.records ==> |r| == env.recordSize
  }

  function Flat(records: seq<seq<byte>>): seq<byte> {
    if records == [] then [] else Flat(records[..|records| - 1]) + records[|records| - 1]
  }

  function ScanFields(d: DriverScan): (f: seq<Attr>)
    ensures |f| == 5
  {
    [Field(33, d.scanId), Leaf(34, [d.flags]), Field(30, |d.records| % 0x1_0000_0000),
     Field(36, d.mask), Leaf(32, Flat(d.records))]
  }

  /** The scans as nested attributes, then the completed flag, under the numbers the driver gives them. */
  function ReplyAttrs(ds: seq<DriverScan>, done: byte): (a: seq<Attr>)
    ensures |a| == |ds| + 1
  {
    seq(|ds|, i requires 0 <= i < |ds| => Nest(ds[i].ty, ScanFields(ds[i]))) + [Leaf(21, [done])]
  }

  /** A slot holds no more records than it has room for, and than their bytes are worth by the size they are
      measured by. */
  function Cached(env: Env, d: DriverScan): Scan
    requires env.Valid()
  {
    var n := Kept(env, |d.records|);
    Scan(Signed(d.scanId), d.flags, n, Signed(d.mask), d.records[..n])
  }

  function Kept(env: Env, n: nat): (k: nat)
    requires env.Valid()
    ensures k <= n && k <= env.maxPerScan
  {
    Min(Min(n, n * env.recordSize / env.resultSize), env.maxPerScan)
  }

  /** A slot takes all the records it has room for if and only if they are worth it by that size: so whenever
      the size they are measured by is not the larger one. */
  lemma KeptInFull(env: Env, n: nat)
    requires env.Valid()
    ensures Kept(env, n) == Min(n, env.maxPerScan)
            <==> Min(n, env.maxPerScan) * env.resultSize <= n * env.recordSize
    ensures env.resultSize <= env.recordSize ==> Kept(env, n) == Min(n, env.maxPerScan)
  {
    var most, total := Min(n, env.maxPerScan), n * env.recordSize;
    DivideBack(most, total, env.resultSize);
    MulMonotone(most, n, env.resultSize);
    if env.resultSize <= env.recordSize {
      MulMonotone(env.resultSize, env.recordSize, n);
    }
  }

  /** A scan without records takes no slot. */
  function CachedAll(env: Env, ds: seq<DriverScan>): seq<Scan>
    requires env.Valid()
  {
    if ds == [] then []
    else (if ds[0].records == [] then [] else [Cached(env, ds[0])]) + CachedAll(env, ds[1..])
  }

  /** As many of the scans as the caller asked for. */
  function WithScans(env: Env, cache: Cache, max: int, ds: seq<DriverScan>): Cache
    requires env.Valid()
  {
    var room, s := max - |cache.scans|, CachedAll(env, ds);
    cache.(scans := cache.scans + if room <= 0 then [] else if |s| <= room then s else s[..room])
  }

  lemma {:induction false} FlatLength(records: seq<seq<byte>>, size: nat)
    requires forall r :: r in records ==> |r| == size
    ensures |Flat(records)| == |records| * size
  {
    if records != [] {
      var before := records[..|records| - 1];
      FlatLength(before, size);
      OneMoreSize(|before|, size);
    }
  }

  lemma OneMoreSize(n: nat, size: nat)
    ensures (n + 1) * size == n * size + size
  {
  }

  /** Cutting the concatenated records apart again gives the records. */
  lemma RecordsOfFlat(env: Env, records: seq<seq<byte>>, n: nat)
    requires n <= |records| && forall r :: r in records ==> |r| == env.recordSize
    ensures Records(env, Flat(records), n) == records[..n]
  {
    hide Flat, Record;
    forall j | 0 <= j < n ensures Records(env, Flat(records), n)[j] == records[j] {
      FlatAt(records, env.recordSize, j);
      RecordsAreSlices(env, Flat(records), n, j);
    }
  }

  lemma {:induction false} FlatAt(records: seq<seq<byte>>, size: nat, i: nat)
    requires i < |records| && forall r :: r in records ==> |r| == size
    ensures 0 <= i * size <= i * size + size <= |Flat(records)|
    ensures Flat(records)[i * size..i * size + size] == records[i]
    decreases |records|
  {
    var before := records[..|records| - 1];
    FlatLength(before, size);
    if i < |before| {
      FlatAt(before, size, i);
    }
  }

  lemma StoredScan(env: Env, d: DriverScan)
    requires env.Valid() && Sendable(env, d)
    ensures Stored(env, Group(Signed(d.scanId), d.flags, |d.records|, Signed(d.mask)), Flat(d.records))
         == Cached(env, d)
  {
    RecordsOfFlat(env, d.records, Kept(env, |d.records|));
    FlatLength(d.records, env.recordSize);
  }

  lemma DivideBack(n: nat, total: nat, size: nat)
    requires size > 0
    ensures total / size >= n <==> n * size <= total
  {
    var q := total / size;
    assert q * size <= total < q * size + size;
    if q >= n {
      MulMonotone(n, q, size);
    } else {
      MulMonotone(q + 1, n, size);
      assert (q + 1) * size == q * size + size;
    }
  }

  lemma GetterReads(get: Getters, x: u32, b: byte)
    ensures get.Get32(Le32(x)) == Signed(x) && get.Get8([b]) == b
  {
    U32OfLe32(x);
  }

  /** One group: its scan is added, unless it is empty or the caller's array is full. */
  lemma GroupShown(env: Env, max: int, cache: Cache, items: seq<Item>, d: DriverScan)
    requires env.Valid() && Sendable(env, d) && Shows(items, ScanFields(d))
    ensures Inner(env, max, Progress(cache, Group(0, 0, 0, 0), false), items).cache
         == if d.records == [] || |cache.scans| >= max then cache else cache.(scans := cache.scans + [Cached(env, d)])
  {
    FieldsShown(items, d);
    GetterReads(env.get, d.scanId, d.flags);
    GetterReads(env.get, |d.records|, d.flags);
    GetterReads(env.get, d.mask, d.flags);
    GroupSteps(env, max, cache, items, d);
    InnerUnrolled(env, max, Progress(cache, Group(0, 0, 0, 0), false), items);
    hide *;
    LastStep(env, max, cache, items[4], d);
  }

  /** The first four attributes of a group set its variables. */
  lemma GroupSteps(env: Env, max: int, cache: Cache, items: seq<Item>, d: DriverScan)
    requires env.Valid() && |items| == 5
    requires items[0].ty == SCAN_ID && env.get.Get32(items[0].payload) == Signed(d.scanId)
    requires items[1].ty == SCAN_FLAGS && env.get.Get8(items[1].payload) == d.flags
    requires items[2].ty == NUM_OF_RESULTS && env.get.Get32(items[2].payload) == |d.records|
    requires items[3].ty == CH_BUCKET_BITMASK && env.get.Get32(items[3].payload) == Signed(d.mask)
    ensures var s1 := InnerStep(env, max, Progress(cache, Group(0, 0, 0, 0), false), items[0]);
            var s2 := InnerStep(env, max, s1, items[1]);
            var s3 := InnerStep(env, max, s2, items[2]);
            InnerStep(env, max, s3, items[3]) == BeforeResults(cache, d)
  {
    hide Stored, Taken, Getters.Get32, Getters.Get8, Signed;
  }

  function BeforeResults(cache: Cache, d: DriverScan): Progress {
    Progress(cache, Group(Signed(d.scanId), d.flags, |d.records|, Signed(d.mask)), false)
  }

  lemma LastStep(env: Env, max: int, cache: Cache, item: Item, d: DriverScan)
    requires env.Valid() && Sendable(env, d) && item.ty == SCAN_RESULTS && item.payload == Flat(d.records)
    ensures InnerStep(env, max, BeforeResults(cache, d), item).cache
         == if d.records == [] || |cache.scans| >= max then cache else cache.(scans := cache.scans + [Cached(env, d)])
  {
    StoredScan(env, d);
    hide Stored, Flat, Signed, Taken;
  }

  lemma InnerUnrolled(env: Env, max: int, s: Progress, items: seq<Item>)
    requires env.Valid() && |items| == 5
    ensures var s1 := InnerStep(env, max, s, items[0]);
            var s2 := InnerStep(env, max, s1, items[1]);
            var s3 := InnerStep(env, max, s2, items[2]);
            var s4 := InnerStep(env, max, s3, items[3]);
            Inner(env, max, s, items) == InnerStep(env, max, s4, items[4])
  {
    hide InnerStep;
    var s1 := InnerStep(env, max, s, items[0]);
    var s2 := InnerStep(env, max, s1, items[1]);
    var s3 := InnerStep(env, max, s2, items[2]);
    var s4 := InnerStep(env, max, s3, items[3]);
    assert Inner(env, max, s, items) == Inner(env, max, s1, items[1..]);
    assert Inner(env, max, s1, items[1..]) == Inner(env, max, s2, items[2..]) by {
      assert items[1..][1..] == items[2..];
    }
    assert Inner(env, max, s2, items[2..]) == Inner(env, max, s3, items[3..]) by {
      assert items[2..][1..] == items[3..];
    }
    assert Inner(env, max, s3, items[3..]) == Inner(env, max, s4, items[4..]) by {
      assert items[3..][1..] == items[4..];
    }
    assert items[4..][0] == items[4] && items[4..][1..] == [];
    assert Inner(env, max, s4, items[4..]) == Inner(env, max, InnerStep(env, max, s4, items[4]), []);
  }

  lemma FieldsShown(items: seq<Item>, d: DriverScan)
    requires Shows(items, ScanFields(d)) && |d.records| < 0x1_0000_0000
    ensures |items| == 5
    ensures items[0].ty == SCAN_ID && items[0].payload == Le32(d.scanId)
    ensures items[1].ty == SCAN_FLAGS && items[1].payload == [d.flags]
    ensures items[2].ty == NUM_OF_RESULTS && items[2].payload == Le32(|d.records|)
    ensures items[3].ty == CH_BUCKET_BITMASK && items[3].payload == Le32(d.mask)
    ensures items[4].ty == SCAN_RESULTS && items[4].payload == Flat(d.records)
  {
    hide Le32, Flat;
    var f := ScanFields(d);
    assert f[0] == Field(SCAN_ID, d.scanId) && f[1] == Leaf(SCAN_FLAGS, [d.flags]) && f[2].ty == NUM_OF_RESULTS;
    assert f[3] == Field(CH_BUCKET_BITMASK, d.mask) && f[4] == Leaf(SCAN_RESULTS, Flat(d.records));
  }

  lemma {:induction false} ReplyShown(env: Env, max: int, cache: Cache, items: seq<Item>,
                                       ds: seq<DriverScan>, done: byte)
    requires env.Valid() && (forall d :: d in ds ==> Sendable(env, d)) && Shows(items, ReplyAttrs(ds, done))
    ensures Outer(env, max, cache, items) == WithScans(env, cache, max, ds).(completed := done)
    decreases |ds|
  {
    if ds == [] {
      assert ReplyAttrs(ds, done)[0] == Leaf(SCAN_RESULTS_COMPLETE, [done]) && items[1..] == [];
    } else {
      assert ds[0] in ds;
      hide Cached, Shows, WithScans, ReplyAttrs, OuterStep;
      FirstGroup(env, max, cache, items, ds, done);
      ReplyShown(env, max, OuterStep(env, max, cache, items[0]), items[1..], ds[1..], done);
      OneMoreScan(env, cache, max, ds);
    }
  }

  lemma {:induction false} FirstGroup(env: Env, max: int, cache: Cache, items: seq<Item>,
                                       ds: seq<DriverScan>, done: byte)
    requires env.Valid() && ds != [] && Sendable(env, ds[0]) && Shows(items, ReplyAttrs(ds, done))
    ensures items != [] && Shows(items[1..], ReplyAttrs(ds[1..], done))
    ensures OuterStep(env, max, cache, items[0])
         == if ds[0].records == [] || |cache.scans| >= max then cache
            else cache.(scans := cache.scans + [Cached(env, ds[0])])
  {
    hide Inner, Cached, ScanFields, Shows, Walk, ReplyAttrs;
    FirstReply(ds, done);
    FirstShown(items, ReplyAttrs(ds, done));
    GroupShown(env, max, cache, Walk(items[0].payload, 0), ds[0]);
  }

  lemma FirstReply(ds: seq<DriverScan>, done: byte)
    requires ds != []
    ensures var attrs := ReplyAttrs(ds, done);
            attrs[0] == Nest(ds[0].ty, ScanFields(ds[0])) && ReplyAttrs(ds[1..], done) == attrs[1..]
  {
  }

  lemma {:induction false} FirstShown(items: seq<Item>, attrs: seq<Attr>)
    requires Shows(items, attrs) && attrs != [] && attrs[0].Nest?
    ensures items != [] && items[0].ty == attrs[0].ty && Shows(Walk(items[0].payload, 0), attrs[0].children)
    ensures Shows(items[1..], attrs[1..])
  {
    hide Walk;
    forall i | 0 <= i < |attrs| - 1 ensures items[1..][i] == items[i + 1] && attrs[1..][i] == attrs[i + 1] {
    }
  }

  lemma OneMoreScan(env: Env, cache: Cache, max: int, ds: seq<DriverScan>)
    requires env.Valid() && ds != []
    ensures var next := if ds[0].records == [] || |cache.scans| >= max then cache
                        else cache.(scans := cache.scans + [Cached(env, ds[0])]);
            WithScans(env, next, max, ds[1..]) == WithScans(env, cache, max, ds)
  {
    hide Cached;
    var s, rest, x := CachedAll(env, ds), CachedAll(env, ds[1..]), Cached(env, ds[0]);
    assert s == (if ds[0].records == [] then [] else [x]) + rest;
    hide CachedAll;
    if ds[0].records == [] {
      assert s == rest;
    } else if |cache.scans| < max {
      RoomShared(cache.scans, x, rest, max - |cache.scans|);
    }
  }

  /** With room for n more, taking one and then the rest is taking from all of them. */
  lemma RoomShared(a: seq<Scan>, x: Scan, rest: seq<Scan>, n: nat)
    requires n > 0
    ensures a + [x] + (if n - 1 <= 0 then [] else if |rest| <= n - 1 then rest else rest[..n - 1])
         == a + if |[x] + rest| <= n then [x] + rest else ([x] + rest)[..n]
  {
    if |rest| > n - 1 {
      assert ([x] + rest)[..n] == [x] + rest[..n - 1];
    }
  }

  lemma WrappedReply(env: Env, ty: nat, attrs: seq<Attr>)
    requires Nest(ty, attrs).Fits()
    ensures Nest(ty, attrs).Encode() != [] && Unwrapped(env, Nest(ty, attrs).Encode()) == EncodeAll(attrs)
  {
    var a := Nest(ty, attrs);
    EncodeAllAligned(attrs);
    RawHead(a.ToRaw(), [], 0);
    assert a.Encode() + [] == a.Encode();
    EncodeBytes(a);
    UnwrappedInside(env, a.Encode());
  }

  /** Round trip through a reply: the scans the driver sent that are not empty, with every field and every
      record that a slot takes, are in the cache behind those already there, in order and as far as the caller
      asked for them. */
  lemma ReplyRoundTrip(env: Env, max: int, cache: Cache, ty: nat, ds: seq<DriverScan>, done: byte)
    requires env.Valid() && forall d :: d in ds ==> Sendable(env, d)
    requires Nest(ty, ReplyAttrs(ds, done)).Fits()
    ensures AfterReply(env, max, cache, Reply(103, Some(Nest(ty, ReplyAttrs(ds, done)).Encode())))
         == WithScans(env, cache, max, ds).(completed := done)
  {
    WrappedReply(env, ty, ReplyAttrs(ds, done));
    hide Shows, EncodeAll, Outer, ReplyAttrs, WithScans, Unwrapped, Attr.Encode;
    WalkShowsTree(ReplyAttrs(ds, done), 0);
    ReplyShown(env, max, cache, Walk(EncodeAll(ReplyAttrs(ds, done)), 0), ds, done);
  }
}
