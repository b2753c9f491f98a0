/** The RTT set-up message: one nested attribute for each target inside another, and what a receiver that
    walks it gets. */
module RttRequest {
  import opened Assoc
  import opened Netlink
  import opened ScanRequest
  import opened ScanRoundTrip

  const RTT_SUBCMD_SET_CONFIG: u32 := 0x1100

  const TARGET_CNT: nat := 10
  const TARGET_INFO: nat := 11
  const TARGET_MAC: nat := 12
  const TARGET_TYPE: nat := 13
  const TARGET_PEER: nat := 14
  const TARGET_CHAN: nat := 15
  const TARGET_PERIOD: nat := 16
  const TARGET_NUM_BURST: nat := 17
  const TARGET_NUM_FTM_BURST: nat := 18
  const TARGET_NUM_RETRY_FTM: nat := 19
  const TARGET_NUM_RETRY_FTMR: nat := 20
  const TARGET_LCI: nat := 21
  const TARGET_LCR: nat := 22
  const TARGET_BURST_DURATION: nat := 23
  const TARGET_PREAMBLE: nat := 24
  const TARGET_BW: nat := 25

  /** One target; addr and channel are the bytes of structures that are sent as they are. */
  datatype Target = Target(addr: seq<byte>, kind: byte, peer: byte, channel: seq<byte>, numBurst: u32,
                           framesPerBurst: u32, retriesPerFrame: u32, retriesPerFtmr: u32, burstPeriod: u32,
                           burstDuration: u32, lci: byte, lcr: byte, bw: byte, preamble: byte)

  // ----- what the message should be

  function TargetFields(t: Target): (f: seq<Attr>)
    ensures |f| == 14
  {
    [Leaf(TARGET_MAC, t.addr), Leaf(TARGET_TYPE, [t.kind]), Leaf(TARGET_PEER, [t.peer]), Leaf(TARGET_CHAN, t.channel),
     Field(TARGET_NUM_BURST, t.numBurst), Field(TARGET_NUM_FTM_BURST, t.framesPerBurst),
     Field(TARGET_NUM_RETRY_FTM, t.retriesPerFrame), Field(TARGET_NUM_RETRY_FTMR, t.retriesPerFtmr),
     Field(TARGET_PERIOD, t.burstPeriod), Field(TARGET_BURST_DURATION, t.burstDuration),
     Leaf(TARGET_LCI, [t.lci]), Leaf(TARGET_LCR, [t.lcr]), Leaf(TARGET_BW, [t.bw]), Leaf(TARGET_PREAMBLE, [t.preamble])]
  }

  function TargetAttr(i: nat, t: Target): Attr {
    Nest(i, TargetFields(t))
  }

  function TargetAttrs(ts: seq<Target>): (a: seq<Attr>)
    ensures |a| == |ts|
  {
    seq(|ts|, i requires 0 <= i < |ts| => TargetAttr(i, ts[i]))
  }

  function CountField(ts: seq<Target>): Attr {
    Leaf(TARGET_CNT, [|ts| % 0x100])
  }

  function RttData(ts: seq<Target>): seq<Attr> {
    [CountField(ts), Nest(TARGET_INFO, TargetAttrs(ts))]
  }

  function RttSetup(iface: int, ts: seq<Target>): seq<Attr> {
    Preamble(GOOGLE_OUI, RTT_SUBCMD_SET_CONFIG, iface) + [Nest(NL80211_ATTR_VENDOR_DATA, RttData(ts))]
  }

  // ----- the builder

  /** One more attribute of a list: it follows the ones before it, and if it does not fit the list does not. */
  lemma AllStep(all: seq<Attr>, k: nat)
    requires k < |all|
    ensures EncodeAll(all[..k + 1]) == EncodeAll(all[..k]) + all[k].Encode()
    ensures |EncodeAll(all[..k + 1])| <= |EncodeAll(all)|
  {
    assert all[..k + 1] == all[..k] + [all[k]] && all == all[..k + 1] + all[k + 1..];
    EncodeAllAppend(all[..k], all[k]);
    EncodeAllConcat(all[..k + 1], all[k + 1..]);
  }

  method PutNext(request: WifiRequest, ty: nat, data: seq<byte>, ghost base: seq<byte>, ghost all: seq<Attr>,
                 ghost k: nat)
    returns (result: int)
    requires request.Valid() && k < |all| && all[k] == Leaf(ty, data) && request.buf == base + EncodeAll(all[..k])
    modifies request
    ensures request.Valid() && (result == SUCCESS || result < 0)
    ensures result == SUCCESS ==> request.buf == base + EncodeAll(all[..k + 1])
    ensures result != SUCCESS ==> |base| + |EncodeAll(all)| > request.capacity
  {
    hide Attr.Encode, EncodeAll;
    AllStep(all, k);
    result := request.Put(ty, data);
  }

  method PutTarget(request: WifiRequest, i: nat, t: Target) returns (result: int)
    requires request.Valid()
    modifies request
    ensures request.Valid() && (result == SUCCESS || result < 0)
    ensures result == SUCCESS <==> |old(request.buf)| + |TargetAttr(i, t).Encode()| <= request.capacity
    ensures result == SUCCESS ==> request.buf == old(request.buf) + TargetAttr(i, t).Encode()
  {
    hide Attr.Encode, EncodeAll, WifiRequest.Valid;
    ghost var front, all := request.buf, TargetFields(t);
    NestSize(i, all);
    OpenedSize(i);
    var attr2 := request.AttrStart(i);
    if attr2 == None {
      return WIFI_ERROR_OUT_OF_MEMORY;
    }
    ghost var base := request.buf;
    NoneYet(base, all);
    result := PutTargetFields(request, t, base);
    if result < 0 {
      return;
    }
    request.AttrEnd(attr2.value, i, front, all);
    WithinCapacity(request);
  }

  lemma WithinCapacity(request: WifiRequest)
    requires request.Valid()
    ensures |request.buf| <= request.capacity
  {
  }

  lemma NoneYet(base: seq<byte>, all: seq<Attr>)
    ensures base == base + EncodeAll(all[..0]) && all[..|all|] == all
  {
  }

  /** The fourteen fields of a target, in the order of the source. */
  method PutTargetFields(request: WifiRequest, t: Target, ghost base: seq<byte>) returns (result: int)
    requires request.Valid() && request.buf == base
    modifies request
    ensures request.Valid() && (result == SUCCESS || result < 0)
    ensures result == SUCCESS ==> request.buf == base + EncodeAll(TargetFields(t))
    ensures result != SUCCESS ==> |base| + |EncodeAll(TargetFields(t))| > request.capacity
  {
    hide Attr.Encode, EncodeAll, WifiRequest.Valid;
    ghost var all := TargetFields(t);
    NoneYet(base, all);
    result := PutNext(request, TARGET_MAC, t.addr, base, all, 0);
    if result < 0 { return; }
    result := PutNext(request, TARGET_TYPE, [t.kind], base, all, 1);
    if result < 0 { return; }
    result := PutNext(request, TARGET_PEER, [t.peer], base, all, 2);
    if result < 0 { return; }
    result := PutNext(request, TARGET_CHAN, t.channel, base, all, 3);
    if result < 0 { return; }
    result := PutNext(request, TARGET_NUM_BURST, Le32(t.numBurst), base, all, 4);
    if result < 0 { return; }
    result := PutBurstFields(request, t, base);
  }

  method PutBurstFields(request: WifiRequest, t: Target, ghost base: seq<byte>) returns (result: int)
    requires request.Valid() && request.buf == base + EncodeAll(TargetFields(t)[..5])
    modifies request
    ensures request.Valid() && (result == SUCCESS || result < 0)
    ensures result == SUCCESS ==> request.buf == base + EncodeAll(TargetFields(t))
    ensures result != SUCCESS ==> |base| + |EncodeAll(TargetFields(t))| > request.capacity
  {
    hide Attr.Encode, EncodeAll, WifiRequest.Valid, Le32;
    ghost var all := TargetFields(t);
    result := PutNext(request, TARGET_NUM_FTM_BURST, Le32(t.framesPerBurst), base, all, 5);
    if result < 0 { return; }
    result := PutNext(request, TARGET_NUM_RETRY_FTM, Le32(t.retriesPerFrame), base, all, 6);
    if result < 0 { return; }
    result := PutNext(request, TARGET_NUM_RETRY_FTMR, Le32(t.retriesPerFtmr), base, all, 7);
    if result < 0 { return; }
    result := PutNext(request, TARGET_PERIOD, Le32(t.burstPeriod), base, all, 8);
    if result < 0 { return; }
    result := PutNext(request, TARGET_BURST_DURATION, Le32(t.burstDuration), base, all, 9);
    if result < 0 { return; }
    result := PutLocationFields(request, t, base);
  }

  method PutLocationFields(request: WifiRequest, t: Target, ghost base: seq<byte>) returns (result: int)
    requires request.Valid() && request.buf == base + EncodeAll(TargetFields(t)[..10])
    modifies request
    ensures request.Valid() && (result == SUCCESS || result < 0)
    ensures result == SUCCESS ==> request.buf == base + EncodeAll(TargetFields(t))
    ensures result != SUCCESS ==> |base| + |EncodeAll(TargetFields(t))| > request.capacity
  {
    hide Attr.Encode, EncodeAll, WifiRequest.Valid;
    ghost var all := TargetFields(t);
    result := PutNext(request, TARGET_LCI, [t.lci], base, all, 10);
    if result < 0 { return; }
    result := PutNext(request, TARGET_LCR, [t.lcr], base, all, 11);
    if result < 0 { return; }
    result := PutNext(request, TARGET_BW, [t.bw], base, all, 12);
    if result < 0 { return; }
    result := PutNext(request, TARGET_PREAMBLE, [t.preamble], base, all, 13);
    assert all[..14] == all;
  }

  /** The targets, one nested attribute after the other. */
  method PutTargets(request: WifiRequest, ts: seq<Target>, ghost base: seq<byte>) returns (result: int)
    requires request.Valid() && request.buf == base
    modifies request
    ensures request.Valid() && (result == SUCCESS || result < 0)
    ensures result == SUCCESS <==> |base| + |EncodeAll(TargetAttrs(ts))| <= request.capacity
    ensures result == SUCCESS ==> request.buf == base + EncodeAll(TargetAttrs(ts))
  {
    hide Attr.Encode, EncodeAll, TargetAttr, WifiRequest.Valid;
    ghost var all := TargetAttrs(ts);
    NoneYet(base, all);
    result := SUCCESS;
    for i := 0 to |ts|
      invariant request.Valid() && result == SUCCESS && request.buf == base + EncodeAll(all[..i])
    {
      AllStep(all, i);
      result := PutTarget(request, i, ts[i]);
      if result < 0 {
        return;
      }
    }
    WithinCapacity(request);
  }

  /** createSetupRequest succeeds exactly when there is memory for the message and the message fits, and then
      it is the encoded tree. Whether the list of targets could be opened is not looked at: an empty list is
      closed without having been opened (nullEnd) exactly when only its header is too much for the message,
      and then nothing is promised. */
  method CreateSetupRequest(request: WifiRequest, ts: seq<Target>, haveMemory: bool)
    returns (result: int, nullEnd: bool)
    requires request.capacity < 0x1_0000
    modifies request
    ensures var size := |EncodeAll(RttSetup(request.iface, ts))|;
            && (nullEnd <==> haveMemory && ts == [] && request.capacity < size <= request.capacity + NLA_HDRLEN)
            && (!nullEnd ==> (result == SUCCESS <==> haveMemory && size <= request.capacity))
    ensures !nullEnd && result != SUCCESS ==> result < 0
    ensures !nullEnd && result == SUCCESS ==> request.buf == EncodeAll(RttSetup(request.iface, ts))
  {
    RttSetupSize(request.iface, ts);
    hide Attr.Encode, EncodeAll, TargetAttrs, RttSetup, RttData, Preamble, CountField;
    nullEnd := false;
    result := request.Create(GOOGLE_OUI, RTT_SUBCMD_SET_CONFIG, haveMemory);
    if result < 0 {
      return;
    }
    OpenedSize(NL80211_ATTR_VENDOR_DATA);
    ghost var front := request.buf;
    var data := request.AttrStart(NL80211_ATTR_VENDOR_DATA);
    result, nullEnd := PutData(request, ts);
    if result < 0 || nullEnd {
      return;
    }
    request.AttrEnd(data.value, NL80211_ATTR_VENDOR_DATA, front, RttData(ts));
  }

  /** What goes between the start and the end of the vendor data. */
  method PutData(request: WifiRequest, ts: seq<Target>) returns (result: int, nullEnd: bool)
    requires request.Valid()
    modifies request
    ensures request.Valid() && (result == SUCCESS || result < 0)
    ensures nullEnd <==> ts == [] && request.capacity < |old(request.buf)| + |EncodeAll(RttData(ts))|
                                     <= request.capacity + NLA_HDRLEN
    ensures !nullEnd ==>
              (result == SUCCESS <==> |old(request.buf)| + |EncodeAll(RttData(ts))| <= request.capacity)
    ensures !nullEnd && result == SUCCESS ==> request.buf == old(request.buf) + EncodeAll(RttData(ts))
  {
    RttDataSize(ts);
    hide Attr.Encode, EncodeAll, TargetAttrs, RttData;
    nullEnd := false;
    result := request.Put(TARGET_CNT, [|ts| % 0x100]);
    if result < 0 {
      return;
    }
    result, nullEnd := PutInfo(request, ts);
  }

  method PutInfo(request: WifiRequest, ts: seq<Target>) returns (result: int, nullEnd: bool)
    requires request.Valid()
    modifies request
    ensures request.Valid() && (result == SUCCESS || result < 0)
    ensures nullEnd <==> ts == [] && |old(request.buf)| + NLA_HDRLEN > request.capacity
    ensures !nullEnd ==>
              (result == SUCCESS <==>
                 |old(request.buf)| + |Nest(TARGET_INFO, TargetAttrs(ts)).Encode()| <= request.capacity)
    ensures !nullEnd && result == SUCCESS ==>
              request.buf == old(request.buf) + Nest(TARGET_INFO, TargetAttrs(ts)).Encode()
  {
    CountFits(TargetAttrs(ts));
    NestSize(TARGET_INFO, TargetAttrs(ts));
    OpenedSize(TARGET_INFO);
    NothingEncoded(ts);
    hide Attr.Encode, EncodeAll;
    nullEnd := false;
    ghost var front := request.buf;
    var rttConfig := request.AttrStart(TARGET_INFO);
    result := PutTargets(request, ts, request.buf);
    if result < 0 {
      return;
    }
    if rttConfig == None {
      return SUCCESS, true;
    }
    request.AttrEnd(rttConfig.value, TARGET_INFO, front, TargetAttrs(ts));
  }

  lemma NothingEncoded(ts: seq<Target>)
    ensures ts == [] ==> EncodeAll(TargetAttrs(ts)) == []
  {
  }

  /** The room the whole message takes, part by part. */
  lemma RttSetupSize(iface: int, ts: seq<Target>)
    ensures EncodeAll(RttData(ts)) == CountField(ts).Encode() + Nest(TARGET_INFO, TargetAttrs(ts)).Encode()
    ensures |CountField(ts).Encode()| == 8
    ensures |EncodeAll(RttData(ts))| == 8 + NLA_HDRLEN + |EncodeAll(TargetAttrs(ts))|
    ensures var preamble := EncodeAll(Preamble(GOOGLE_OUI, RTT_SUBCMD_SET_CONFIG, iface));
            EncodeAll(RttSetup(iface, ts)) == preamble + Nest(NL80211_ATTR_VENDOR_DATA, RttData(ts)).Encode()
            && |EncodeAll(RttSetup(iface, ts))| == |preamble| + NLA_HDRLEN + |EncodeAll(RttData(ts))|
    ensures ts == [] ==> EncodeAll(TargetAttrs(ts)) == []
  {
    RttDataSize(ts);
    hide Attr.Encode, TargetAttrs, RttData, EncodeAll;
    EncodeAllAppend(Preamble(GOOGLE_OUI, RTT_SUBCMD_SET_CONFIG, iface), Nest(NL80211_ATTR_VENDOR_DATA, RttData(ts)));
    NestSize(NL80211_ATTR_VENDOR_DATA, RttData(ts));
  }

  lemma RttDataSize(ts: seq<Target>)
    ensures EncodeAll(RttData(ts)) == CountField(ts).Encode() + Nest(TARGET_INFO, TargetAttrs(ts)).Encode()
    ensures |CountField(ts).Encode()| == 8
    ensures |EncodeAll(RttData(ts))| == 8 + NLA_HDRLEN + |EncodeAll(TargetAttrs(ts))|
    ensures ts == [] ==> EncodeAll(TargetAttrs(ts)) == []
  {
    EncodeBytes(CountField(ts));
    NestSize(TARGET_INFO, TargetAttrs(ts));
    assert [CountField(ts)] + [Nest(TARGET_INFO, TargetAttrs(ts))] == RttData(ts);
    EncodeAllAppend([CountField(ts)], Nest(TARGET_INFO, TargetAttrs(ts)));
    assert EncodeAll([CountField(ts)]) == CountField(ts).Encode() + EncodeAll([]);
  }

  // ----- the receiver

  datatype RttParams = RttParams(count: nat, targets: seq<Target>)

  function Bytes(payload: Option<seq<byte>>): seq<byte> {
    if payload.Some? then payload.value else []
  }

  function First(payload: Option<seq<byte>>): byte {
    if Bytes(payload) == [] then 0 else Bytes(payload)[0]
  }

  /** The receiver goes by the numbers of the attributes. */
  function DecodeTarget(items: seq<Item>): Target {
    Target(Bytes(Find(items, 12)), First(Find(items, 13)), First(Find(items, 14)), Bytes(Find(items, 15)),
           Number(Find(items, 17)), Number(Find(items, 18)), Number(Find(items, 19)), Number(Find(items, 20)),
           Number(Find(items, 16)), Number(Find(items, 23)), First(Find(items, 21)), First(Find(items, 22)),
           First(Find(items, 25)), First(Find(items, 24)))
  }

  function DecodeTargets(items: seq<Item>): (ts: seq<Target>)
    ensures |ts| == |items|
  {
    seq(|items|, i requires 0 <= i < |items| => DecodeTarget(Walk(items[i].payload, 0)))
  }

  function DecodeData(items: seq<Item>): RttParams {
    RttParams(First(Find(items, 10)), DecodeTargets(Walk(Bytes(Find(items, 11)), 0)))
  }

  function DecodeSetup(message: seq<byte>): RttParams {
    DecodeData(Walk(Bytes(Find(Walk(message, 0), 197)), 0))
  }

  lemma LeafShown(items: seq<Item>, attrs: seq<Attr>, i: nat, ty: nat, data: seq<byte>)
    requires Shows(items, attrs) && i < |attrs| && attrs[i] == Leaf(ty, data)
    requires forall j :: 0 <= j < i ==> attrs[j].ty != ty
    ensures Find(items, ty) == Some(data)
  {
    FindAt(items, ty, i);
  }

  lemma TargetShown(items: seq<Item>, t: Target)
    requires Shows(items, TargetFields(t))
    ensures DecodeTarget(items) == t
  {
    hide Shows, Find, Number, First, Bytes, TargetFields;
    LeavesShown(items, t);
    NumbersOfTarget(items, t);
    ByteFirst(t.kind);
    ByteFirst(t.peer);
    ByteFirst(t.lci);
    ByteFirst(t.lcr);
    ByteFirst(t.bw);
    ByteFirst(t.preamble);
    BytesSome(t.addr);
    BytesSome(t.channel);
  }

  lemma ByteFirst(b: byte)
    ensures First(Some([b])) == b
  {
  }

  lemma BytesSome(b: seq<byte>)
    ensures Bytes(Some(b)) == b
  {
  }

  lemma LeavesShown(items: seq<Item>, t: Target)
    requires Shows(items, TargetFields(t))
    ensures Find(items, TARGET_MAC) == Some(t.addr) && Find(items, TARGET_CHAN) == Some(t.channel)
    ensures Find(items, TARGET_TYPE) == Some([t.kind]) && Find(items, TARGET_PEER) == Some([t.peer])
    ensures Find(items, TARGET_LCI) == Some([t.lci]) && Find(items, TARGET_LCR) == Some([t.lcr])
    ensures Find(items, TARGET_BW) == Some([t.bw]) && Find(items, TARGET_PREAMBLE) == Some([t.preamble])
  {
    hide Shows, Find, Le32;
    var all := TargetFields(t);
    LeafShown(items, all, 0, TARGET_MAC, t.addr);
    LeafShown(items, all, 1, TARGET_TYPE, [t.kind]);
    LeafShown(items, all, 2, TARGET_PEER, [t.peer]);
    LeafShown(items, all, 3, TARGET_CHAN, t.channel);
    LeafShown(items, all, 10, TARGET_LCI, [t.lci]);
    LeafShown(items, all, 11, TARGET_LCR, [t.lcr]);
    LeafShown(items, all, 12, TARGET_BW, [t.bw]);
    LeafShown(items, all, 13, TARGET_PREAMBLE, [t.preamble]);
  }

  lemma NumbersOfTarget(items: seq<Item>, t: Target)
    requires Shows(items, TargetFields(t))
    ensures Number(Find(items, TARGET_NUM_BURST)) == t.numBurst
    ensures Number(Find(items, TARGET_NUM_FTM_BURST)) == t.framesPerBurst
    ensures Number(Find(items, TARGET_NUM_RETRY_FTM)) == t.retriesPerFrame
    ensures Number(Find(items, TARGET_NUM_RETRY_FTMR)) == t.retriesPerFtmr
    ensures Number(Find(items, TARGET_PERIOD)) == t.burstPeriod
    ensures Number(Find(items, TARGET_BURST_DURATION)) == t.burstDuration
  {
    hide Shows, Find, Number, Le32;
    var all := TargetFields(t);
    FieldShown(items, all, 4, TARGET_NUM_BURST, t.numBurst);
    FieldShown(items, all, 5, TARGET_NUM_FTM_BURST, t.framesPerBurst);
    FieldShown(items, all, 6, TARGET_NUM_RETRY_FTM, t.retriesPerFrame);
    FieldShown(items, all, 7, TARGET_NUM_RETRY_FTMR, t.retriesPerFtmr);
    FieldShown(items, all, 8, TARGET_PERIOD, t.burstPeriod);
    FieldShown(items, all, 9, TARGET_BURST_DURATION, t.burstDuration);
  }

  lemma DataShown(items: seq<Item>, ts: seq<Target>)
    requires Shows(items, RttData(ts))
    ensures DecodeData(items) == RttParams(|ts| % 0x100, ts)
  {
    hide TargetFields, Find, DecodeTarget;
    LeafShown(items, RttData(ts), 0, TARGET_CNT, [|ts| % 0x100]);
    assert RttData(ts)[1] == Nest(TARGET_INFO, TargetAttrs(ts));
    FindAt(items, TARGET_INFO, 1);
    var inner := Walk(items[1].payload, 0);
    assert Shows(inner, TargetAttrs(ts));
    forall i | 0 <= i < |ts| ensures DecodeTarget(Walk(inner[i].payload, 0)) == ts[i] {
      assert TargetAttrs(ts)[i] == TargetAttr(i, ts[i]);
      TargetShown(Walk(inner[i].payload, 0), ts[i]);
    }
    assert DecodeTargets(inner) == ts;
  }

  lemma SetupShown(items: seq<Item>, iface: int, ts: seq<Target>)
    requires Shows(items, RttSetup(iface, ts))
    ensures DecodeData(Walk(Bytes(Find(items, NL80211_ATTR_VENDOR_DATA)), 0)) == RttParams(|ts| % 0x100, ts)
  {
    hide Find, DecodeData, RttData;
    var attrs := RttSetup(iface, ts);
    var last := |attrs| - 1;
    assert attrs[last] == Nest(NL80211_ATTR_VENDOR_DATA, RttData(ts));
    FindAt(items, NL80211_ATTR_VENDOR_DATA, last);
    DataShown(Walk(items[last].payload, 0), ts);
  }

  lemma DataFits(ty: nat, data: seq<byte>)
    requires ty < 0x1_0000 && |Leaf(ty, data).Encode()| < 0x1_0000
    ensures Leaf(ty, data).Fits()
  {
    EncodeBytes(Leaf(ty, data));
  }

  lemma FieldsAreLeaves(t: Target)
    ensures forall a :: a in TargetFields(t) ==> a.Leaf? && a.ty < 0x1_0000
  {
  }

  lemma TargetFits(i: nat, t: Target)
    requires i < 0x1_0000 && |TargetAttr(i, t).Encode()| < 0x1_0000
    ensures TargetAttr(i, t).Fits()
  {
    hide Attr.Encode, Attr.Fits, TargetFields;
    var all := TargetFields(t);
    FieldsAreLeaves(t);
    NestSize(i, all);
    forall a | a in all ensures a.Fits() {
      var j :| 0 <= j < |all| && a == all[j];
      PartFits(all, j);
      DataFits(a.ty, a.data);
    }
    NestFits(i, all);
  }

  lemma SetupFits(iface: int, ts: seq<Target>)
    requires |EncodeAll(RttSetup(iface, ts))| < 0x1_0000
    ensures forall a :: a in RttSetup(iface, ts) ==> a.Fits()
  {
    hide Attr.Encode, Attr.Fits, EncodeAll;
    RttSetupSize(iface, ts);
    CountFits(TargetAttrs(ts));
    forall a | a in TargetAttrs(ts) ensures a.Fits() {
      var i :| 0 <= i < |ts| && a == TargetAttr(i, ts[i]);
      assert TargetAttrs(ts)[i] == a;
      PartFits(TargetAttrs(ts), i);
      TargetFits(i, ts[i]);
    }
    NestFits(TARGET_INFO, TargetAttrs(ts));
    DataFits(TARGET_CNT, [|ts| % 0x100]);
    NestFits(NL80211_ATTR_VENDOR_DATA, RttData(ts));
    LeafFits(NL80211_ATTR_VENDOR_ID, GOOGLE_OUI);
    LeafFits(NL80211_ATTR_VENDOR_SUBCMD, RTT_SUBCMD_SET_CONFIG);
    LeafFits(NL80211_ATTR_IFINDEX, Unsigned(iface));
  }

  lemma RttWalks(iface: int, ts: seq<Target>)
    requires |EncodeAll(RttSetup(iface, ts))| < 0x1_0000
    ensures Shows(Walk(EncodeAll(RttSetup(iface, ts)), 0), RttSetup(iface, ts))
  {
    hide *;
    SetupFits(iface, ts);
    WalkShowsTree(RttSetup(iface, ts), 0);
  }

  /** Round trip: walking a set-up message gives back whom it is for and every target with all its fields, in
      order; the count it carries is a single byte and is right if and only if there are fewer than 256 targets. */
  lemma RttRequestRoundTrip(iface: i32, ts: seq<Target>)
    requires |EncodeAll(RttSetup(iface, ts))| < 0x1_0000
    ensures DecodeHeader(EncodeAll(RttSetup(iface, ts)))
         == Header(0x1A11, 0x1100, if iface == -1 then None else Some(iface))
    ensures var p := DecodeSetup(EncodeAll(RttSetup(iface, ts)));
            p.targets == ts && (p.count == |p.targets| <==> |ts| < 256)
  {
    hide Shows, EncodeAll, DecodeData, HeaderOf, Walk, Find, Attr.Fits, Preamble, RttData;
    RttWalks(iface, ts);
    var items := Walk(EncodeAll(RttSetup(iface, ts)), 0);
    HeaderShown(items, GOOGLE_OUI, RTT_SUBCMD_SET_CONFIG, iface, Nest(NL80211_ATTR_VENDOR_DATA, RttData(ts)));
    SetupShown(items, iface, ts);
  }
}
