/** What a receiver that walks the scan set-up message with nested iterators gets out of it. */
module ScanRoundTrip {
  import opened Assoc
  import opened Netlink
  import opened ScanRequest

  datatype ScanParams = ScanParams(basePeriod: u32, numBuckets: i32, buckets: seq<Bucket>)

  /** A bucket as it is sent: its band corrected, and the channels that are meant. */
  function Sent(b: Bucket): Bucket {
    Checked(b).(channels := b.Used())
  }

  function SentAll(bs: seq<Bucket>): (s: seq<Bucket>)
    ensures |s| == |bs|
  {
    seq(|bs|, i requires 0 <= i < |bs| => Sent(bs[i]))
  }

  /** The payload of the first attribute of the type. */
  function Find(items: seq<Item>, ty: nat): Option<seq<byte>> {
    if items == [] then None
    else if items[0].ty == ty then Some(items[0].payload)
    else Find(items[1..], ty)
  }

  function Number(payload: Option<seq<byte>>): u32 {
    if payload.Some? && |payload.value| >= 4 then U32(payload.value) else 0
  }

  function Numbers(items: seq<Item>): seq<u32> {
    seq(|items|, i requires 0 <= i < |items| => Number(Some(items[i].payload)))
  }

  /** The receiver goes by the numbers of the attributes. */
  function DecodeBucket(items: seq<Item>): Bucket {
    var channels := Find(items, 16);
    Bucket(Number(Find(items, 13)), Number(Find(items, 14)), Number(Find(items, 12)), Number(Find(items, 25)),
           Number(Find(items, 26)), Number(Find(items, 24)), Signed(Number(Find(items, 15))),
           if channels.None? then [] else Numbers(Walk(channels.value, 0)))
  }

  /** Period and bucket count come first; everything after them is a bucket, whatever its type. */
  function DecodeScan(items: seq<Item>): Option<ScanParams> {
    if |items| < 2 || items[0].ty != 11 || items[1].ty != 10 then None
    else Some(ScanParams(Number(Some(items[0].payload)), Signed(Number(Some(items[1].payload))),
                         seq(|items| - 2, i requires 0 <= i < |items| - 2 =>
                               DecodeBucket(Walk(items[i + 2].payload, 0)))))
  }

  function DecodeRequest(message: seq<byte>): Option<ScanParams> {
    match Find(Walk(message, 0), 197)
    case None => None
    case Some(data) => DecodeScan(Walk(data, 0))
  }

  /** Whom a vendor command is for: vendor, subcommand, and the interface, if it is for one. */
  datatype Header = Header(vendorId: u32, subcmd: u32, iface: Option<i32>)

  function DecodeHeader(message: seq<byte>): Header {
    HeaderOf(Walk(message, 0))
  }

  function HeaderOf(items: seq<Item>): Header {
    var iface := Find(items, 3);
    Header(Number(Find(items, 195)), Number(Find(items, 196)),
           if iface.None? then None else Some(Signed(Number(iface))))
  }

  lemma {:induction false} FindAt(items: seq<Item>, ty: nat, i: nat)
    requires i < |items| && items[i].ty == ty && forall j :: 0 <= j < i ==> items[j].ty != ty
    ensures Find(items, ty) == Some(items[i].payload)
  {
    if i > 0 {
      FindAt(items[1..], ty, i - 1);
    }
  }

  lemma {:induction false} FindNone(items: seq<Item>, ty: nat)
    requires forall j :: 0 <= j < |items| ==> items[j].ty != ty
    ensures Find(items, ty) == None
  {
    if items != [] {
      FindNone(items[1..], ty);
    }
  }

  /** The items show 32-bit fields with these values. */
  lemma NumbersShown(items: seq<Item>, cs: seq<u32>)
    requires Shows(items, Channels(cs))
    ensures Numbers(items) == cs
  {
    forall i | 0 <= i < |cs| ensures Numbers(items)[i] == cs[i] {
      assert Channels(cs)[i] == Field(i, cs[i]);
      U32OfLe32(cs[i]);
    }
  }

  lemma FieldShown(items: seq<Item>, attrs: seq<Attr>, i: nat, ty: nat, x: u32)
    requires Shows(items, attrs) && i < |attrs| && attrs[i] == Field(ty, x)
    requires forall j :: 0 <= j < i ==> attrs[j].ty != ty
    ensures Number(Find(items, ty)) == x
  {
    FindAt(items, ty, i);
    U32OfLe32(x);
  }

  lemma BucketShown(items: seq<Item>, b: Bucket)
    requires Shows(items, Fields(b) + ChannelPart(b))
    ensures DecodeBucket(items) == Sent(b)
  {
    var attrs := Fields(b) + ChannelPart(b);
    hide Shows, U32, Le32, Find, Number, Signed, Unsigned;
    FieldShown(items, attrs, 0, BUCKET_ID, b.id);
    FieldShown(items, attrs, 1, BUCKET_PERIOD, b.period);
    FieldShown(items, attrs, 2, BUCKETS_BAND, BandOf(b));
    FieldShown(items, attrs, 3, BUCKET_STEP_COUNT, b.stepCount);
    FieldShown(items, attrs, 4, BUCKET_MAX_PERIOD, b.maxPeriod);
    FieldShown(items, attrs, 5, REPORT_EVENTS, b.reportEvents);
    FieldShown(items, attrs, 6, BUCKET_NUM_CHANNELS, Unsigned(b.numChannels));
    SignedOfUnsigned(b.numChannels);
    ChannelsShown(items, b);
  }

  lemma ChannelsShown(items: seq<Item>, b: Bucket)
    requires Shows(items, Fields(b) + ChannelPart(b))
    ensures var found := Find(items, BUCKET_CHANNELS);
            b.Used() == if found.None? then [] else Numbers(Walk(found.value, 0))
  {
    var attrs := Fields(b) + ChannelPart(b);
    assert forall j :: 0 <= j < 7 ==> attrs[j] == Fields(b)[j] && items[j].ty != BUCKET_CHANNELS;
    if b.numChannels == 0 {
      FindNone(items, BUCKET_CHANNELS);
    } else {
      assert attrs[7] == Nest(BUCKET_CHANNELS, Channels(b.Used()));
      FindAt(items, BUCKET_CHANNELS, 7);
      NumbersShown(Walk(items[7].payload, 0), b.Used());
    }
  }

  lemma ShownAt(items: seq<Item>, attrs: seq<Attr>, i: nat)
    requires Shows(items, attrs) && i < |attrs|
    ensures |items| == |attrs| && items[i].ty == attrs[i].ty
    ensures attrs[i].Leaf? ==> items[i].payload == attrs[i].data
    ensures attrs[i].Nest? ==> Shows(Walk(items[i].payload, 0), attrs[i].children)
  {
  }

  lemma ScanShown(items: seq<Item>, basePeriod: u32, num: i32, bs: seq<Bucket>)
    requires Shows(items, ScanHead(basePeriod, num) + BucketAttrs(bs))
    ensures DecodeScan(items) == Some(ScanParams(basePeriod, num, SentAll(bs)))
  {
    hide Shows, U32, Le32, Signed, Unsigned, DecodeBucket, Sent, Fields, ChannelPart;
    var attrs := ScanHead(basePeriod, num) + BucketAttrs(bs);
    U32OfLe32(basePeriod);
    U32OfLe32(Unsigned(num));
    SignedOfUnsigned(num);
    ShownAt(items, attrs, 0);
    ShownAt(items, attrs, 1);
    forall i | 0 <= i < |bs| ensures DecodeBucket(Walk(items[i + 2].payload, 0)) == Sent(bs[i]) {
      ShownAt(items, attrs, i + 2);
      BucketShown(Walk(items[i + 2].payload, 0), bs[i]);
    }
    assert DecodeScan(items).value.buckets == SentAll(bs);
  }

  // ----- everything in a message of bounded size fits its 16 bits

  lemma LeafFits(ty: nat, x: u32)
    requires ty < 0x1_0000
    ensures Field(ty, x).Fits()
  {
  }

  lemma {:induction false} PartFits(attrs: seq<Attr>, i: nat)
    requires i < |attrs|
    ensures |attrs[i].Encode()| <= |EncodeAll(attrs)|
  {
    if i > 0 {
      PartFits(attrs[1..], i - 1);
    }
  }

  /** Every encoded attribute takes at least its header, so positions fit where sizes do. */
  lemma {:induction false} CountFits(attrs: seq<Attr>)
    ensures NLA_HDRLEN * |attrs| <= |EncodeAll(attrs)|
  {
    if attrs != [] {
      CountFits(attrs[1..]);
      EncodeBytes(attrs[0]);
    }
  }

  lemma NestFits(ty: nat, children: seq<Attr>)
    requires ty < 0x1_0000 && NLA_HDRLEN + |EncodeAll(children)| < 0x1_0000
    requires forall c :: c in children ==> c.Fits()
    ensures Nest(ty, children).Fits()
  {
    assert Nest(ty, children).ToRaw() == Raw(ty, EncodeAll(children), Zeros(Padding(EncodeAll(children))));
  }

  lemma BucketFits(i: nat, b: Bucket)
    requires i < 0x1_0000 && |BucketAttr(i, b).Encode()| < 0x1_0000
    ensures BucketAttr(i, b).Fits()
  {
    BucketSize(i, b);
    EncodeAllConcat(Fields(b), ChannelPart(b));
    forall a | a in Fields(b) ensures a.Fits() {
      var j :| 0 <= j < 7 && a == Fields(b)[j];
      LeafFits(a.ty, if j == 0 then b.id else if j == 1 then b.period else if j == 2 then BandOf(b)
                     else if j == 3 then b.stepCount else if j == 4 then b.maxPeriod
                     else if j == 5 then b.reportEvents else Unsigned(b.numChannels));
    }
    if b.numChannels != 0 {
      forall a | a in Channels(b.Used()) ensures a.Fits() {
        var j :| 0 <= j < |b.Used()| && a == Field(j, b.Used()[j]);
        LeafFits(j, b.Used()[j]);
      }
      NestSize(BUCKET_CHANNELS, Channels(b.Used()));
      NestFits(BUCKET_CHANNELS, Channels(b.Used()));
    }
    NestFits(i, Fields(b) + ChannelPart(b));
  }

  lemma ScanDataFits(basePeriod: u32, num: i32, bs: seq<Bucket>)
    requires NLA_HDRLEN + |EncodeAll(ScanHead(basePeriod, num) + BucketAttrs(bs))| < 0x1_0000
    ensures ScanData(basePeriod, num, bs).Fits() && |bs| < 0x1_0000
  {
    hide Attr.Encode, Attr.Fits, EncodeAll, BucketAttr;
    var children := ScanHead(basePeriod, num) + BucketAttrs(bs);
    CountFits(children);
    forall a | a in children ensures a.Fits() {
      var i :| 0 <= i < |children| && a == children[i];
      PartFits(children, i);
      if i >= 2 {
        BucketFits(i - 2, bs[i - 2]);
      } else {
        LeafFits(a.ty, if i == 0 then basePeriod else Unsigned(num));
      }
    }
    NestFits(NL80211_ATTR_VENDOR_DATA, children);
  }

  lemma RequestFits(iface: int, basePeriod: u32, num: i32, bs: seq<Bucket>)
    requires |EncodeAll(SetupRequest(iface, basePeriod, num, bs))| < 0x1_0000
    ensures forall a :: a in SetupRequest(iface, basePeriod, num, bs) ==> a.Fits()
    ensures |bs| < 0x1_0000
  {
    hide Attr.Encode, Attr.Fits, EncodeAll, ScanData, ScanHead, BucketAttrs;
    SetupSize(iface, basePeriod, num, bs);
    ScanDataFits(basePeriod, num, bs);
    LeafFits(NL80211_ATTR_VENDOR_ID, GOOGLE_OUI);
    LeafFits(NL80211_ATTR_VENDOR_SUBCMD, GSCAN_SUBCMD_SET_CONFIG);
    LeafFits(NL80211_ATTR_IFINDEX, Unsigned(iface));
  }

  lemma RequestShown(items: seq<Item>, iface: int, basePeriod: u32, num: i32, bs: seq<Bucket>)
    requires Shows(items, SetupRequest(iface, basePeriod, num, bs))
    ensures Find(items, NL80211_ATTR_VENDOR_DATA).Some?
    ensures DecodeScan(Walk(Find(items, NL80211_ATTR_VENDOR_DATA).value, 0))
         == Some(ScanParams(basePeriod, num, SentAll(bs)))
  {
    var attrs := SetupRequest(iface, basePeriod, num, bs);
    var last := |attrs| - 1;
    assert attrs[last] == ScanData(basePeriod, num, bs);
    FindAt(items, NL80211_ATTR_VENDOR_DATA, last);
    ScanShown(Walk(items[last].payload, 0), basePeriod, num, bs);
  }

  lemma RequestWalks(iface: int, basePeriod: u32, num: i32, bs: seq<Bucket>)
    requires |EncodeAll(SetupRequest(iface, basePeriod, num, bs))| < 0x1_0000
    ensures var attrs := SetupRequest(iface, basePeriod, num, bs); Shows(Walk(EncodeAll(attrs), 0), attrs)
    ensures |bs| < 0x1_0000
  {
    hide *;
    RequestFits(iface, basePeriod, num, bs);
    WalkShowsTree(SetupRequest(iface, basePeriod, num, bs), 0);
  }

  lemma HeaderShown(items: seq<Item>, id: u32, subcmd: u32, iface: i32, data: Attr)
    requires Shows(items, Preamble(id, subcmd, iface) + [data]) && data.ty == 197
    ensures HeaderOf(items) == Header(id, subcmd, if iface == -1 then None else Some(iface))
  {
    var attrs := Preamble(id, subcmd, iface) + [data];
    assert forall i :: 0 <= i < |attrs| ==> items[i].ty == attrs[i].ty;
    hide Shows, U32, Le32, Number;
    FieldShown(items, attrs, 0, 195, id);
    FieldShown(items, attrs, 1, 196, subcmd);
    if iface == -1 {
      FindNone(items, 3);
    } else {
      FieldShown(items, attrs, 2, 3, Unsigned(iface));
      SignedOfUnsigned(iface);
      FindAt(items, 3, 2);
    }
  }

  /** Round trip: walking a set-up message gives back whom it is for, the base period, the bucket count, and every
      bucket as it was, in order: only that a band outside the enumeration has become 3, and that of the channels
      those are there that are counted. */
  lemma ScanRequestRoundTrip(iface: i32, basePeriod: u32, num: i32, bs: seq<Bucket>)
    requires |EncodeAll(SetupRequest(iface, basePeriod, num, bs))| < 0x1_0000
    ensures DecodeHeader(EncodeAll(SetupRequest(iface, basePeriod, num, bs)))
         == Header(0x1A11, 0x1001, if iface == -1 then None else Some(iface))
    ensures var p := DecodeRequest(EncodeAll(SetupRequest(iface, basePeriod, num, bs)));
            && p.Some? && p.value.basePeriod == basePeriod && p.value.numBuckets == num
            && |p.value.buckets| == |bs|
            && forall i :: 0 <= i < |bs| ==>
                 p.value.buckets[i]
                 == bs[i].(band := if 0 <= bs[i].band <= 7 then bs[i].band else 3,
                           channels := if 0 < bs[i].numChannels <= |bs[i].channels|
                                       then bs[i].channels[..bs[i].numChannels] else [])
  {
    var message := EncodeAll(SetupRequest(iface, basePeriod, num, bs));
    RequestWalks(iface, basePeriod, num, bs);
    HeaderShown(Walk(message, 0), GOOGLE_OUI, GSCAN_SUBCMD_SET_CONFIG, iface, ScanData(basePeriod, num, bs));
    hide Shows, SetupRequest, EncodeAll, DecodeScan, Walk, Find, Attr.Fits;
    RequestShown(Walk(message, 0), iface, basePeriod, num, bs);
  }

  /** A receiver that goes by attribute type alone can tell the two leading fields from the buckets if and
      only if there are at most ten buckets: the eleventh has the type of the bucket count. */
  lemma TypesTellBucketsApart(basePeriod: u32, bs: seq<Bucket>)
    ensures (forall i :: 0 <= i < |bs| ==> BucketAttrs(bs)[i].ty !in {10, 11}) <==> |bs| <= 10
  {
    if |bs| > NUM_BUCKETS {
      assert BucketAttrs(bs)[NUM_BUCKETS].ty == NUM_BUCKETS;
    }
  }
}
