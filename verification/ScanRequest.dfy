/** WifiRequest and the scan set-up message that ScanCommand builds with it: attributes are appended to a
    message of bounded size, nested ones are opened with a placeholder header and closed by patching it. */
module ScanRequest {
  import opened Assoc
  import opened Netlink

  const SUCCESS: int := 0
  /** Any negative code; the two the code can produce here come from headers outside the repository. */
  const WIFI_ERROR_OUT_OF_MEMORY: int := -9
  const NLE_NOMEM: int := 5

  // nl80211 attribute numbers, from a header that is not part of the repository
  const NL80211_ATTR_IFINDEX: nat := 3
  const NL80211_ATTR_VENDOR_ID: nat := 195
  const NL80211_ATTR_VENDOR_SUBCMD: nat := 196
  const NL80211_ATTR_VENDOR_DATA: nat := 197

  const GOOGLE_OUI: u32 := 0x001A11
  const GSCAN_SUBCMD_SET_CONFIG: u32 := 0x1001

  const NUM_BUCKETS: nat := 10
  const BASE_PERIOD: nat := 11
  const BUCKETS_BAND: nat := 12
  const BUCKET_ID: nat := 13
  const BUCKET_PERIOD: nat := 14
  const BUCKET_NUM_CHANNELS: nat := 15
  const BUCKET_CHANNELS: nat := 16
  const REPORT_EVENTS: nat := 24
  const BUCKET_STEP_COUNT: nat := 25
  const BUCKET_MAX_PERIOD: nat := 26

  // enum wifi_band, from a header that is not part of the repository
  const WIFI_BAND_UNSPECIFIED: int := 0
  const WIFI_BAND_ABG: int := 3
  const WIFI_BAND_ABG_WITH_DFS: int := 7

  /** One scan bucket: its array of channels, and how many of them are meant. */
  datatype Bucket = Bucket(id: u32, period: u32, band: int, stepCount: u32, maxPeriod: u32, reportEvents: u32,
                           numChannels: i32, channels: seq<u32>) {
    /** The array is as long as the count says. */
    predicate Valid() {
      numChannels <= |channels|
    }

    function Used(): seq<u32> {
      if 0 < numChannels <= |channels| then channels[..numChannels] else []
    }
  }

  /** The parameter check: a band outside the enumeration becomes the default. */
  function Checked(b: Bucket): Bucket {
    if b.band < WIFI_BAND_UNSPECIFIED || b.band > WIFI_BAND_ABG_WITH_DFS then b.(band := WIFI_BAND_ABG) else b
  }

  function CheckedAll(bs: seq<Bucket>): seq<Bucket> {
    seq(|bs|, i requires 0 <= i < |bs| => Checked(bs[i]))
  }

  // ----- what the message should be

  function Field(ty: nat, x: u32): Attr {
    Leaf(ty, Le32(x))
  }

  function Channels(cs: seq<u32>): seq<Attr> {
    seq(|cs|, j requires 0 <= j < |cs| => Field(j, cs[j]))
  }

  function BandOf(b: Bucket): u32 {
    Checked(b).band
  }

  function Fields(b: Bucket): seq<Attr> {
    [Field(BUCKET_ID, b.id), Field(BUCKET_PERIOD, b.period), Field(BUCKETS_BAND, BandOf(b)),
     Field(BUCKET_STEP_COUNT, b.stepCount), Field(BUCKET_MAX_PERIOD, b.maxPeriod),
     Field(REPORT_EVENTS, b.reportEvents), Field(BUCKET_NUM_CHANNELS, Unsigned(b.numChannels))]
  }

  function ChannelPart(b: Bucket): seq<Attr> {
    if b.numChannels == 0 then [] else [Nest(BUCKET_CHANNELS, Channels(b.Used()))]
  }

  function BucketAttr(i: nat, b: Bucket): Attr {
    Nest(i, Fields(b) + ChannelPart(b))
  }

  function BucketAttrs(bs: seq<Bucket>): seq<Attr> {
    seq(|bs|, i requires 0 <= i < |bs| => BucketAttr(i, bs[i]))
  }

  function Preamble(id: u32, subcmd: u32, iface: int): seq<Attr> {
    [Field(NL80211_ATTR_VENDOR_ID, id), Field(NL80211_ATTR_VENDOR_SUBCMD, subcmd)]
    + if iface == -1 then [] else [Field(NL80211_ATTR_IFINDEX, Unsigned(iface))]
  }

  /** The count is sent as it is; the buckets are those it makes the loop visit. */
  function ScanHead(basePeriod: u32, num: int): seq<Attr> {
    [Field(BASE_PERIOD, basePeriod), Field(NUM_BUCKETS, Unsigned(num))]
  }

  function ScanData(basePeriod: u32, num: int, bs: seq<Bucket>): Attr {
    Nest(NL80211_ATTR_VENDOR_DATA, ScanHead(basePeriod, num) + BucketAttrs(bs))
  }

  function SetupRequest(iface: int, basePeriod: u32, num: int, bs: seq<Bucket>): seq<Attr> {
    Preamble(GOOGLE_OUI, GSCAN_SUBCMD_SET_CONFIG, iface) + [ScanData(basePeriod, num, bs)]
  }

  // ----- sizes

  lemma FieldSize(ty: nat, x: u32)
    ensures |Field(ty, x).Encode()| == 8
  {
    EncodeBytes(Field(ty, x));
  }

  lemma NestSize(ty: nat, children: seq<Attr>)
    ensures |Nest(ty, children).Encode()| == NLA_HDRLEN + |EncodeAll(children)|
  {
    EncodeBytes(Nest(ty, children));
    EncodeAllAligned(children);
  }

  /** What attr_start leaves behind: a header of length four. */
  function Opened(ty: nat): seq<byte> {
    Leaf(ty, []).Encode()
  }

  lemma OpenedSize(ty: nat)
    ensures |Opened(ty)| == NLA_HDRLEN
    ensures Opened(ty) == Le16(NLA_HDRLEN) + Le16(ty) && Opened(ty)[2..] == Le16(ty)
  {
    EncodeBytes(Leaf(ty, []));
  }

  lemma NestBytes(ty: nat, children: seq<Attr>)
    ensures Nest(ty, children).Encode() == Le16(NLA_HDRLEN + |EncodeAll(children)|) + Le16(ty) + EncodeAll(children)
  {
    EncodeAllAligned(children);
    EncodeBytes(Nest(ty, children));
  }

  /** The first two bytes behind front are replaced. */
  lemma Patched(front: seq<byte>, head: seq<byte>, ty: seq<byte>, body: seq<byte>, length: seq<byte>)
    requires |head| == 4 && |ty| == |length| == 2 && head[2..] == ty
    ensures var b := front + head + body; b[..|front|] + length + b[|front| + 2..] == front + (length + ty + body)
  {
    var b := front + head + body;
    assert b[..|front|] == front && b[|front| + 2..] == ty + body;
  }

  /** Patching the length of an opened attribute makes it the nested attribute of what follows. */
  lemma ClosedNest(front: seq<byte>, ty: nat, children: seq<Attr>)
    ensures var b := front + Opened(ty) + EncodeAll(children);
            var n := |b| - |front|;
            b[..|front|] + Le16(n) + b[|front| + 2..] == front + Nest(ty, children).Encode()
  {
    OpenedSize(ty);
    NestBytes(ty, children);
    hide Opened, Le16, EncodeAll, Attr.Encode;
    Patched(front, Opened(ty), Le16(ty), EncodeAll(children), Le16(NLA_HDRLEN + |EncodeAll(children)|));
  }

  // ----- the builder

  lemma EncodeAligned(a: Attr)
    ensures |a.Encode()| % 4 == 0
  {
    EncodeBytes(a);
  }

  class WifiRequest {
    const capacity: nat
    const iface: int
    var buf: seq<byte>

    /** The message is at most as long as a 16-bit attribute length can say. */
    ghost predicate Valid()
      reads this
    {
      |buf| <= capacity < 0x1_0000 && |buf| % 4 == 0
    }

    constructor (capacity: nat, iface: int)
      requires capacity < 0x1_0000
      ensures Valid() && buf == [] && this.capacity == capacity && this.iface == iface
    {
      this.capacity, this.iface, buf := capacity, iface, [];
    }

    /** nla_put: appended if it fits, refused without a trace if not. */
    method Put(ty: nat, data: seq<byte>) returns (res: int)
      requires Valid()
      modifies this
      ensures Valid()
      ensures res == SUCCESS || res == -NLE_NOMEM
      ensures res == SUCCESS <==> |old(buf)| + |Leaf(ty, data).Encode()| <= capacity
      ensures buf == if res == SUCCESS then old(buf) + Leaf(ty, data).Encode() else old(buf)
    {
      hide Attr.Encode;
      var bytes := Leaf(ty, data).Encode();
      if |buf| + |bytes| > capacity {
        return -NLE_NOMEM;
      }
      EncodeAligned(Leaf(ty, data));
      buf := buf + bytes;
      res := SUCCESS;
    }

    /** put_u32 where the attributes done follow the bytes front. */
    method PutU32(ty: nat, x: u32, ghost front: seq<byte>, ghost done: seq<Attr>) returns (res: int)
      requires Valid() && buf == front + EncodeAll(done)
      modifies this
      ensures Valid() && (res == SUCCESS || res == -NLE_NOMEM)
      ensures res == SUCCESS <==> |old(buf)| + 8 <= capacity
      ensures res == SUCCESS ==> buf == front + EncodeAll(done + [Field(ty, x)]) && |buf| == |old(buf)| + 8
      ensures res != SUCCESS ==> buf == old(buf)
    {
      FieldSize(ty, x);
      EncodeAllAppend(done, Field(ty, x));
      res := Put(ty, Le32(x));
    }

    /** attr_start: the place of the opened attribute, or None (NULL) when it does not fit. */
    method AttrStart(ty: nat) returns (nest: Option<nat>)
      requires Valid()
      modifies this
      ensures Valid()
      ensures nest == if |old(buf)| + NLA_HDRLEN <= capacity then Some(|old(buf)|) else None
      ensures buf == if nest.Some? then old(buf) + Opened(ty) else old(buf)
    {
      OpenedSize(ty);
      var start := |buf|;
      var res := Put(ty, []);
      nest := if res < 0 then None else Some(start);
    }

    /** attr_end: the length of the opened attribute now covers all that was put since. */
    method AttrEnd(nest: nat, ghost ty: nat, ghost front: seq<byte>, ghost children: seq<Attr>)
      requires Valid() && nest == |front| && buf == front + Opened(ty) + EncodeAll(children)
      modifies this
      ensures Valid() && buf == front + Nest(ty, children).Encode() && |buf| == |old(buf)|
    {
      OpenedSize(ty);
      ClosedNest(front, ty, children);
      buf := buf[..nest] + Le16(|buf| - nest) + buf[nest + 2..];
    }

    /** WifiRequest::create for a vendor command; nlmsg_alloc may fail. */
    method Create(id: u32, subcmd: u32, haveMemory: bool) returns (res: int)
      requires capacity < 0x1_0000
      modifies this
      ensures res == SUCCESS || res < 0
      ensures res == SUCCESS <==> haveMemory && |EncodeAll(Preamble(id, subcmd, iface))| <= capacity
      ensures res == SUCCESS ==> Valid() && buf == EncodeAll(Preamble(id, subcmd, iface))
    {
      PreambleSize(id, subcmd, iface);
      if !haveMemory {
        return WIFI_ERROR_OUT_OF_MEMORY;
      }
      buf := [];
      res := PutU32(NL80211_ATTR_VENDOR_ID, id, [], []);
      if res < 0 {
        return;
      }
      ghost var done := [Field(NL80211_ATTR_VENDOR_ID, id)];
      assert [] + done == done;
      res := PutU32(NL80211_ATTR_VENDOR_SUBCMD, subcmd, [], done);
      if res < 0 {
        return;
      }
      done := done + [Field(NL80211_ATTR_VENDOR_SUBCMD, subcmd)];
      if iface != -1 {
        res := PutU32(NL80211_ATTR_IFINDEX, Unsigned(iface), [], done);
      } else {
        assert done == Preamble(id, subcmd, iface);
      }
    }
  }

  lemma PreambleSize(id: u32, subcmd: u32, iface: int)
    ensures |EncodeAll(Preamble(id, subcmd, iface))| == if iface == -1 then 16 else 24
  {
    FieldsSize(Preamble(id, subcmd, iface));
  }

  /** A list of 32-bit fields takes eight bytes each. */
  lemma {:induction false} FieldsSize(attrs: seq<Attr>)
    requires forall a :: a in attrs ==> a.Leaf? && |a.data| == 4
    ensures |EncodeAll(attrs)| == 8 * |attrs|
  {
    if attrs != [] {
      FieldsSize(attrs[1..]);
      EncodeBytes(attrs[0]);
    }
  }

  function ChannelSize(b: Bucket): nat {
    if b.numChannels == 0 then 0 else NLA_HDRLEN + 8 * |b.Used()|
  }

  lemma BucketSize(i: nat, b: Bucket)
    ensures |EncodeAll(Fields(b))| == 56 && |EncodeAll(ChannelPart(b))| == ChannelSize(b)
    ensures |BucketAttr(i, b).Encode()| == NLA_HDRLEN + 56 + ChannelSize(b)
    ensures |Nest(BUCKET_CHANNELS, Channels(b.Used())).Encode()| == NLA_HDRLEN + 8 * |b.Used()|
  {
    FieldsSize(Fields(b));
    FieldsSize(Channels(b.Used()));
    NestSize(BUCKET_CHANNELS, Channels(b.Used()));
    if b.numChannels != 0 {
      assert EncodeAll(ChannelPart(b)) == ChannelPart(b)[0].Encode() + EncodeAll([]);
    }
    EncodeAllConcat(Fields(b), ChannelPart(b));
    NestSize(i, Fields(b) + ChannelPart(b));
  }

  /** The channel list of a bucket: opened, filled channel by channel, closed. Whether it could be opened is
      not looked at: an empty one is closed without having been opened (nullEnd) when its header does not fit. */
  method PutChannels(request: WifiRequest, cs: seq<u32>) returns (result: int, nullEnd: bool)
    requires request.Valid()
    modifies request
    ensures request.Valid() && (result == SUCCESS || result < 0)
    ensures nullEnd <==> cs == [] && |old(request.buf)| + NLA_HDRLEN > request.capacity
    ensures !nullEnd ==> (result == SUCCESS <==> |old(request.buf)| + NLA_HDRLEN + 8 * |cs| <= request.capacity)
    ensures !nullEnd && result == SUCCESS ==>
              request.buf == old(request.buf) + Nest(BUCKET_CHANNELS, Channels(cs)).Encode()
  {
    nullEnd := false;
    ghost var front := request.buf;
    OpenedSize(BUCKET_CHANNELS);
    var channels := request.AttrStart(BUCKET_CHANNELS);
    ghost var base := request.buf;
    result := SUCCESS;
    for j := 0 to |cs|
      invariant request.Valid() && result == SUCCESS
      invariant request.buf == base + EncodeAll(Channels(cs[..j])) && |request.buf| == |base| + 8 * j
      invariant channels.None? ==> j == 0
    {
      assert Channels(cs[..j]) + [Field(j, cs[j])] == Channels(cs[..j + 1]);
      result := request.PutU32(j, cs[j], base, Channels(cs[..j]));
      if result < 0 {
        return;
      }
    }
    assert cs[..|cs|] == cs;
    if channels == None {
      return SUCCESS, true;
    }
    request.AttrEnd(channels.value, BUCKET_CHANNELS, front, Channels(cs));
  }

  lemma NoFields(base: seq<byte>)
    ensures base == base + EncodeAll([])
  {
  }

  /** The fields up to k, and one more. */
  lemma NextField(all: seq<Attr>, k: nat)
    requires k < |all|
    ensures all[..k] + [all[k]] == all[..k + 1]
  {
  }

  /** The seven fixed fields of a bucket, in the order of the source. */
  method PutFields(request: WifiRequest, b: Bucket, ghost front: seq<byte>) returns (result: int)
    requires request.Valid() && request.buf == front && Checked(b) == b
    modifies request
    ensures request.Valid() && (result == SUCCESS || result < 0)
    ensures result == SUCCESS <==> |front| + 56 <= request.capacity
    ensures result == SUCCESS ==> request.buf == front + EncodeAll(Fields(b)) && |request.buf| == |front| + 56
    ensures |front| + 8 > request.capacity ==> request.buf == front
  {
    NoFields(front);
    hide EncodeAll, Field, Unsigned;
    ghost var all := Fields(b);
    assert all[..0] == [];
    result := request.PutU32(BUCKET_ID, b.id, front, all[..0]);
    if result < 0 {
      return;
    }
    NextField(all, 0);
    result := request.PutU32(BUCKET_PERIOD, b.period, front, all[..1]);
    if result < 0 {
      return;
    }
    NextField(all, 1);
    result := request.PutU32(BUCKETS_BAND, b.band, front, all[..2]);
    if result < 0 {
      return;
    }
    NextField(all, 2);
    result := PutMoreFields(request, b, front);
  }

  method PutMoreFields(request: WifiRequest, b: Bucket, ghost front: seq<byte>) returns (result: int)
    requires request.Valid() && |request.buf| == |front| + 24
    requires request.buf == front + EncodeAll(Fields(b)[..3])
    modifies request
    ensures request.Valid() && (result == SUCCESS || result < 0)
    ensures result == SUCCESS <==> |front| + 56 <= request.capacity
    ensures result == SUCCESS ==> request.buf == front + EncodeAll(Fields(b)) && |request.buf| == |front| + 56
  {
    hide EncodeAll, Field, Unsigned;
    ghost var all := Fields(b);
    result := request.PutU32(BUCKET_STEP_COUNT, b.stepCount, front, all[..3]);
    if result < 0 {
      return;
    }
    NextField(all, 3);
    result := request.PutU32(BUCKET_MAX_PERIOD, b.maxPeriod, front, all[..4]);
    if result < 0 {
      return;
    }
    NextField(all, 4);
    result := request.PutU32(REPORT_EVENTS, b.reportEvents, front, all[..5]);
    if result < 0 {
      return;
    }
    NextField(all, 5);
    result := request.PutU32(BUCKET_NUM_CHANNELS, Unsigned(b.numChannels), front, all[..6]);
    if result < 0 {
      return;
    }
    NextField(all, 6);
    assert all[..7] == all;
  }

  /** With a negative count of channels, and room for everything but the header of their list. */
  predicate ClosesNull(b: Bucket, used: nat, capacity: nat) {
    b.numChannels < 0 && used + NLA_HDRLEN + 56 <= capacity < used + NLA_HDRLEN + 56 + NLA_HDRLEN
  }

  /** One bucket as a nested attribute of type i. */
  method PutBucket(request: WifiRequest, i: nat, b: Bucket) returns (result: int, nullEnd: bool)
    requires request.Valid() && b.Valid() && Checked(b) == b
    modifies request
    ensures request.Valid() && (result == SUCCESS || result < 0)
    ensures nullEnd <==> ClosesNull(b, |old(request.buf)|, request.capacity)
    ensures !nullEnd ==> (result == SUCCESS <==> |old(request.buf)| + |BucketAttr(i, b).Encode()| <= request.capacity)
    ensures !nullEnd && result == SUCCESS ==> request.buf == old(request.buf) + BucketAttr(i, b).Encode()
  {
    nullEnd := false;
    BucketSize(i, b);
    OpenedSize(i);
    ghost var front := request.buf;
    var bucket := request.AttrStart(i);
    ghost var base := request.buf;
    result := PutFields(request, b, base);
    if result < 0 {
      return;
    }
    if b.numChannels != 0 {
      result, nullEnd := PutChannels(request, b.Used());
      if result < 0 || nullEnd {
        return;
      }
    }
    PutBucketBody(base, b);
    request.AttrEnd(bucket.value, i, front, Fields(b) + ChannelPart(b));
  }

  lemma PutBucketBody(front: seq<byte>, b: Bucket)
    ensures b.numChannels == 0 ==> front + EncodeAll(Fields(b)) == front + EncodeAll(Fields(b) + ChannelPart(b))
    ensures b.numChannels != 0 ==>
              front + EncodeAll(Fields(b)) + Nest(BUCKET_CHANNELS, Channels(b.Used())).Encode()
              == front + EncodeAll(Fields(b) + ChannelPart(b))
  {
    if b.numChannels == 0 {
      assert Fields(b) + ChannelPart(b) == Fields(b);
    } else {
      EncodeAllAppend(Fields(b), Nest(BUCKET_CHANNELS, Channels(b.Used())));
    }
  }

  /** The message with n buckets in it takes no more room than the whole. */
  lemma PrefixSize(head: seq<Attr>, bs: seq<Bucket>, n: nat)
    requires n <= |bs|
    ensures |EncodeAll(head + BucketAttrs(bs[..n]))| <= |EncodeAll(head + BucketAttrs(bs))|
  {
    var rest := BucketAttrs(bs)[n..];
    assert head + BucketAttrs(bs) == head + BucketAttrs(bs[..n]) + rest;
    EncodeAllConcat(head + BucketAttrs(bs[..n]), rest);
  }

  /** The fields head and the first n buckets. */
  ghost function Part(head: seq<Attr>, bs: seq<Bucket>, n: nat): seq<byte>
    requires n <= |bs|
  {
    EncodeAll(head + BucketAttrs(bs[..n]))
  }

  lemma PartEnds(head: seq<Attr>, bs: seq<Bucket>)
    ensures Part(head, bs, 0) == EncodeAll(head) && Part(head, bs, |bs|) == EncodeAll(head + BucketAttrs(bs))
  {
    assert head + BucketAttrs(bs[..0]) == head && bs[..|bs|] == bs;
  }

  lemma PartStep(head: seq<Attr>, bs: seq<Bucket>, i: nat)
    requires i < |bs|
    ensures Part(head, bs, i) + BucketAttr(i, bs[i]).Encode() == Part(head, bs, i + 1)
    ensures |Part(head, bs, i + 1)| <= |Part(head, bs, |bs|)|
  {
    hide Attr.Encode, EncodeAll, BucketAttr;
    PartEnds(head, bs);
    PrefixSize(head, bs, i + 1);
    assert head + BucketAttrs(bs[..i]) + [BucketAttr(i, bs[i])] == head + BucketAttrs(bs[..i + 1]);
    EncodeAllAppend(head + BucketAttrs(bs[..i]), BucketAttr(i, bs[i]));
  }

  /** The parts of the message only grow. */
  lemma {:induction false} PartsGrow(head: seq<Attr>, bs: seq<Bucket>, i: nat, j: nat)
    requires i <= j <= |bs|
    ensures |Part(head, bs, i)| <= |Part(head, bs, j)|
    decreases j
  {
    hide Part, Attr.Encode, BucketAttr;
    if i < j {
      PartsGrow(head, bs, i, j - 1);
      PartStep(head, bs, j - 1);
    }
  }

  /** Some bucket of the message has its channel list closed without having been opened. */
  ghost predicate SomeClosesNull(head: seq<Attr>, bs: seq<Bucket>, used: nat, capacity: nat) {
    exists i :: 0 <= i < |bs| && ClosesNull(bs[i], used + |Part(head, bs, i)|, capacity)
  }

  /** Where one bucket does not fit, or closes a list that was never opened, no other closes such a list. */
  lemma FirstDecides(head: seq<Attr>, bs: seq<Bucket>, used: nat, capacity: nat, i: nat)
    requires i < |bs| && used + |Part(head, bs, i)| <= capacity < used + |Part(head, bs, i + 1)|
    ensures SomeClosesNull(head, bs, used, capacity) <==> ClosesNull(bs[i], used + |Part(head, bs, i)|, capacity)
  {
    hide Part;
    forall j | 0 <= j < |bs| && j != i ensures !ClosesNull(bs[j], used + |Part(head, bs, j)|, capacity) {
      if j < i {
        FittingClosesNothing(head, bs, used, capacity, j, i);
      } else {
        PartsGrow(head, bs, i + 1, j);
      }
    }
  }

  lemma FittingClosesNothing(head: seq<Attr>, bs: seq<Bucket>, used: nat, capacity: nat, j: nat, i: nat)
    requires j < i <= |bs| && used + |Part(head, bs, i)| <= capacity
    ensures !ClosesNull(bs[j], used + |Part(head, bs, j)|, capacity)
  {
    PartStep(head, bs, j);
    PartsGrow(head, bs, j + 1, i);
    BucketSize(j, bs[j]);
    hide Part, BucketAttr;
  }

  lemma AllFitting(head: seq<Attr>, bs: seq<Bucket>, used: nat, capacity: nat)
    requires used + |Part(head, bs, |bs|)| <= capacity
    ensures !SomeClosesNull(head, bs, used, capacity)
  {
    hide Part, ClosesNull;
    forall j | 0 <= j < |bs| ensures !ClosesNull(bs[j], used + |Part(head, bs, j)|, capacity) {
      FittingClosesNothing(head, bs, used, capacity, j, |bs|);
    }
  }

  /** A message is the same whether the bands are corrected before or while it is built. */
  lemma SameMessage(iface: int, basePeriod: u32, num: int, bs: seq<Bucket>)
    ensures BucketAttrs(CheckedAll(bs)) == BucketAttrs(bs)
    ensures SetupRequest(iface, basePeriod, num, CheckedAll(bs)) == SetupRequest(iface, basePeriod, num, bs)
  {
    forall i | 0 <= i < |bs| ensures BucketAttr(i, CheckedAll(bs)[i]) == BucketAttr(i, bs[i]) {
      SameBucket(i, bs[i]);
    }
    hide BucketAttr;
    assert BucketAttrs(CheckedAll(bs)) == BucketAttrs(bs);
  }

  lemma SameBucket(i: nat, b: Bucket)
    ensures BucketAttr(i, Checked(b)) == BucketAttr(i, b)
  {
    assert Fields(Checked(b)) == Fields(b) && ChannelPart(Checked(b)) == ChannelPart(b);
  }

  lemma BandsCorrected(bs: seq<Bucket>)
    ensures |CheckedAll(bs)| == |bs|
    ensures forall i :: 0 <= i < |bs| ==>
              CheckedAll(bs)[i] == bs[i].(band := if 0 <= bs[i].band <= 7 then bs[i].band else 3)
  {
  }

  lemma SameNulls(head: seq<Attr>, bs: seq<Bucket>, used: nat, capacity: nat)
    ensures SomeClosesNull(head, CheckedAll(bs), used, capacity) <==> SomeClosesNull(head, bs, used, capacity)
  {
    var cs := CheckedAll(bs);
    forall i | 0 <= i < |bs|
      ensures ClosesNull(cs[i], used + |Part(head, cs, i)|, capacity)
              <==> ClosesNull(bs[i], used + |Part(head, bs, i)|, capacity)
    {
      assert cs[..i] == CheckedAll(bs[..i]);
      SameMessage(0, 0, 0, bs[..i]);
    }
  }

  class ScanCommand {
    var basePeriod: u32
    const numBuckets: i32
    /** mParams->buckets, which belongs to the caller and is corrected in place. */
    const buckets: array<Bucket>

    constructor (basePeriod: u32, numBuckets: i32, buckets: array<Bucket>)
      ensures this.basePeriod == basePeriod && this.numBuckets == numBuckets && this.buckets == buckets
    {
      this.basePeriod, this.numBuckets, this.buckets := basePeriod, numBuckets, buckets;
    }

    /** The arrays are as long as the counts say. */
    ghost predicate Valid()
      reads buckets
    {
      numBuckets <= buckets.Length && forall i :: 0 <= i < buckets.Length ==> buckets[i].Valid()
    }

    /** How many buckets the loop visits. */
    function Count(): (n: nat)
      ensures n == if numBuckets > 0 then numBuckets else 0
    {
      if numBuckets > 0 then numBuckets else 0
    }

    /** The buckets that are sent, corrected. */
    ghost function Sent(): (bs: seq<Bucket>)
      requires Valid()
      reads buckets
      ensures |bs| == Count()
    {
      CheckedAll(buckets[..Count()])
    }

    /** The buckets, corrected and appended one after the other behind the bytes base and the fields head. */
    method PutBuckets(request: WifiRequest, ghost base: seq<byte>, ghost head: seq<Attr>, ghost bs: seq<Bucket>)
      returns (result: int, nullEnd: bool)
      requires request.Valid() && request.buf == base + EncodeAll(head) && Valid() && bs == Sent()
      modifies request, buckets
      ensures request.Valid() && (result == SUCCESS || result < 0)
      ensures nullEnd <==> SomeClosesNull(head, bs, |base|, request.capacity)
      ensures !nullEnd ==>
                (result == SUCCESS <==> |base| + |EncodeAll(head + BucketAttrs(bs))| <= request.capacity)
      ensures !nullEnd && result == SUCCESS ==>
                request.buf == base + EncodeAll(head + BucketAttrs(bs)) && buckets[..Count()] == bs
      ensures buckets[Count()..] == old(buckets[Count()..])
      ensures forall i :: 0 <= i < Count() ==> buckets[i] == old(buckets[i]) || buckets[i] == bs[i]
    {
      PartEnds(head, bs);
      hide Part, EncodeAll, Attr.Encode, BucketAttrs, BucketAttr, ClosesNull, SomeClosesNull;
      result, nullEnd := SUCCESS, false;
      for i := 0 to Count()
        invariant request.Valid() && result == SUCCESS && !nullEnd
        invariant request.buf == base + Part(head, bs, i)
        invariant forall j :: 0 <= j < i ==> buckets[j] == bs[j]
        invariant forall j :: i <= j < buckets.Length ==> buckets[j] == old(buckets[j])
      {
        if buckets[i].band < WIFI_BAND_UNSPECIFIED || buckets[i].band > WIFI_BAND_ABG_WITH_DFS {
          buckets[i] := buckets[i].(band := WIFI_BAND_ABG);
        }
        PartStep(head, bs, i);
        result, nullEnd := PutBucket(request, i, buckets[i]);
        if result < 0 || nullEnd {
          NullIsTight(i, bs[i], |base| + |Part(head, bs, i)|, request.capacity);
          FirstDecides(head, bs, |base|, request.capacity, i);
          return;
        }
      }
      AllFitting(head, bs, |base|, request.capacity);
    }

    /** createSetupRequest succeeds exactly when the message fits, and then the message is the encoded tree of the
        buckets, and in the caller's array every band outside the enumeration has become 3 and nothing else has
        changed. A channel list is closed without having been opened (nullEnd) only for a negative count of
        channels, when the message is full to its very header; then nothing is promised of the message. */
    method CreateSetupRequest(request: WifiRequest, haveMemory: bool) returns (result: int, nullEnd: bool)
      requires request.capacity < 0x1_0000 && Valid()
      modifies request, buckets
      ensures var bs, head := old(buckets[..Count()]), ScanHead(basePeriod, numBuckets);
              var size := |EncodeAll(SetupRequest(request.iface, basePeriod, numBuckets, bs))|;
              var used := |EncodeAll(Preamble(GOOGLE_OUI, GSCAN_SUBCMD_SET_CONFIG, request.iface))| + NLA_HDRLEN;
              && (nullEnd <==> haveMemory && SomeClosesNull(head, bs, used, request.capacity))
              && (!nullEnd ==> (result == SUCCESS <==> haveMemory && size <= request.capacity))
              && (!nullEnd && result == SUCCESS ==>
                    request.buf == EncodeAll(SetupRequest(request.iface, basePeriod, numBuckets, bs)))
      ensures result == SUCCESS || result < 0
      ensures !nullEnd && result == SUCCESS ==>
                forall i :: 0 <= i < Count() ==>
                  buckets[i]
                  == old(buckets[i]).(band := if 0 <= old(buckets[i]).band <= 7 then old(buckets[i]).band else 3)
      ensures forall i :: 0 <= i < Count() && buckets[i] != old(buckets[i]) ==>
                !(0 <= old(buckets[i]).band <= 7) && buckets[i] == old(buckets[i]).(band := 3)
      ensures buckets[Count()..] == old(buckets[Count()..])
    {
      ghost var bs := buckets[..Count()];
      SameMessage(request.iface, basePeriod, numBuckets, bs);
      SameNulls(ScanHead(basePeriod, numBuckets), bs,
                |EncodeAll(Preamble(GOOGLE_OUI, GSCAN_SUBCMD_SET_CONFIG, request.iface))| + NLA_HDRLEN,
                request.capacity);
      BandsCorrected(bs);
      hide SomeClosesNull, EncodeAll, SetupRequest, Preamble, ScanHead, CheckedAll;
      result, nullEnd := BuildRequest(request, haveMemory);
    }

    method BuildRequest(request: WifiRequest, haveMemory: bool) returns (result: int, nullEnd: bool)
      requires request.capacity < 0x1_0000 && Valid()
      modifies request, buckets
      ensures var bs, head := old(Sent()), ScanHead(basePeriod, numBuckets);
              var size := |EncodeAll(SetupRequest(request.iface, basePeriod, numBuckets, bs))|;
              var used := |EncodeAll(Preamble(GOOGLE_OUI, GSCAN_SUBCMD_SET_CONFIG, request.iface))| + NLA_HDRLEN;
              && (nullEnd <==> haveMemory && SomeClosesNull(head, bs, used, request.capacity))
              && (!nullEnd ==> (result == SUCCESS <==> haveMemory && size <= request.capacity))
              && (!nullEnd && result == SUCCESS ==>
                    request.buf == EncodeAll(SetupRequest(request.iface, basePeriod, numBuckets, bs))
                    && buckets[..Count()] == bs)
              && forall i :: 0 <= i < Count() ==> buckets[i] == old(buckets[i]) || buckets[i] == bs[i]
      ensures result == SUCCESS || result < 0
      ensures buckets[Count()..] == old(buckets[Count()..])
    {
      nullEnd := false;
      ghost var bs := Sent();
      ghost var head := ScanHead(basePeriod, numBuckets);
      SetupSize(request.iface, basePeriod, numBuckets, bs);
      NoRoomClosesNothing(head, bs,
                          |EncodeAll(Preamble(GOOGLE_OUI, GSCAN_SUBCMD_SET_CONFIG, request.iface))| + NLA_HDRLEN,
                          request.capacity);
      hide SomeClosesNull, Part, EncodeAll, Attr.Encode, BucketAttrs, SetupRequest, Preamble, ScanHead;
      result := request.Create(GOOGLE_OUI, GSCAN_SUBCMD_SET_CONFIG, haveMemory);
      if result < 0 {
        return;
      }
      ghost var front := request.buf;
      var data := request.AttrStart(NL80211_ATTR_VENDOR_DATA);
      result, nullEnd := PutData(request, bs);
      if result < 0 || nullEnd {
        return;
      }
      request.AttrEnd(data.value, NL80211_ATTR_VENDOR_DATA, front, head + BucketAttrs(bs));
    }

    /** What goes between the start and the end of the vendor data. */
    method PutData(request: WifiRequest, ghost bs: seq<Bucket>) returns (result: int, nullEnd: bool)
      requires request.Valid() && Valid() && bs == Sent()
      modifies request, buckets
      ensures request.Valid() && (result == SUCCESS || result < 0)
      ensures var head, used := ScanHead(basePeriod, numBuckets), |old(request.buf)|;
              && (nullEnd <==> SomeClosesNull(head, bs, used, request.capacity))
              && (!nullEnd ==>
                    (result == SUCCESS <==> used + |EncodeAll(head + BucketAttrs(bs))| <= request.capacity))
              && (!nullEnd && result == SUCCESS ==>
                    request.buf == old(request.buf) + EncodeAll(head + BucketAttrs(bs)) && buckets[..Count()] == bs)
      ensures buckets[Count()..] == old(buckets[Count()..])
      ensures forall i :: 0 <= i < Count() ==> buckets[i] == old(buckets[i]) || buckets[i] == bs[i]
    {
      nullEnd := false;
      ghost var base, head := request.buf, ScanHead(basePeriod, numBuckets);
      HeadSize(basePeriod, numBuckets, bs);
      NoRoomClosesNothing(head, bs, |base|, request.capacity);
      NoFields(base);
      hide SomeClosesNull, Part, EncodeAll, Attr.Encode, BucketAttrs;
      result := request.PutU32(BASE_PERIOD, basePeriod, base, []);
      if result < 0 {
        return;
      }
      assert [] + [Field(BASE_PERIOD, basePeriod)] == [Field(BASE_PERIOD, basePeriod)];
      result := request.PutU32(NUM_BUCKETS, Unsigned(numBuckets), base, [Field(BASE_PERIOD, basePeriod)]);
      if result < 0 {
        return;
      }
      assert [Field(BASE_PERIOD, basePeriod)] + [Field(NUM_BUCKETS, Unsigned(numBuckets))] == head;
      result, nullEnd := PutBuckets(request, base, head, bs);
    }
  }

  lemma HeadSize(basePeriod: u32, num: int, bs: seq<Bucket>)
    ensures |EncodeAll(ScanHead(basePeriod, num))| == 16 <= |EncodeAll(ScanHead(basePeriod, num) + BucketAttrs(bs))|
  {
    FieldsSize(ScanHead(basePeriod, num));
    EncodeAllConcat(ScanHead(basePeriod, num), BucketAttrs(bs));
  }

  /** A list closed without having been opened is one that does not fit. */
  lemma NullIsTight(i: nat, b: Bucket, used: nat, capacity: nat)
    requires ClosesNull(b, used, capacity)
             || used + |BucketAttr(i, b).Encode()| > capacity
    ensures used + |BucketAttr(i, b).Encode()| > capacity
  {
    BucketSize(i, b);
  }

  /** Without room for the two fields, no bucket is reached. */
  lemma NoRoomClosesNothing(head: seq<Attr>, bs: seq<Bucket>, used: nat, capacity: nat)
    ensures used + |EncodeAll(head)| > capacity ==> !SomeClosesNull(head, bs, used, capacity)
  {
    PartEnds(head, bs);
    forall i | 0 <= i < |bs| && used + |EncodeAll(head)| > capacity
      ensures !ClosesNull(bs[i], used + |Part(head, bs, i)|, capacity)
    {
      PartsGrow(head, bs, 0, i);
    }
  }

  /** The room the whole message takes, part by part. */
  lemma SetupSize(iface: int, basePeriod: u32, num: int, bs: seq<Bucket>)
    ensures var preamble := Preamble(GOOGLE_OUI, GSCAN_SUBCMD_SET_CONFIG, iface);
            EncodeAll(SetupRequest(iface, basePeriod, num, bs))
            == EncodeAll(preamble) + ScanData(basePeriod, num, bs).Encode()
            && |EncodeAll(SetupRequest(iface, basePeriod, num, bs))|
               == |EncodeAll(preamble)| + NLA_HDRLEN + |EncodeAll(ScanHead(basePeriod, num) + BucketAttrs(bs))|
    ensures |EncodeAll(ScanHead(basePeriod, num) + BucketAttrs(bs))| >= 16
    ensures |EncodeAll(ScanHead(basePeriod, num))| == 16
    ensures |Opened(NL80211_ATTR_VENDOR_DATA)| == NLA_HDRLEN
  {
    EncodeAllAppend(Preamble(GOOGLE_OUI, GSCAN_SUBCMD_SET_CONFIG, iface), ScanData(basePeriod, num, bs));
    NestSize(NL80211_ATTR_VENDOR_DATA, ScanHead(basePeriod, num) + BucketAttrs(bs));
    HeadSize(basePeriod, num, bs);
    OpenedSize(NL80211_ATTR_VENDOR_DATA);
  }
}
