/** Netlink attributes as bytes: a header of two little-endian 16-bit numbers (length with header, type),
    the payload, and zero bytes up to a multiple of four (section 2.2 of RFC 3549). */
module Netlink {

  type byte = x: int | 0 <= x < 0x100
  type u32 = x: int | 0 <= x < 0x1_0000_0000
  type i32 = x: int | -0x8000_0000 <= x < 0x8000_0000

  const NLA_HDRLEN: nat := 4

  function Align(n: nat): (r: nat)
    ensures n <= r < n + 4 && r % 4 == 0
    ensures n % 4 == 0 ==> r == n
  {
    (n + 3) / 4 * 4
  }

  /** Bytes between the end of an attribute with this payload and the next one. */
  function Padding(payload: seq<byte>): nat {
    Align(NLA_HDRLEN + |payload|) - (NLA_HDRLEN + |payload|)
  }

  function Le16(x: nat): (b: seq<byte>)
    ensures |b| == 2
  {
    [x % 0x100, x / 0x100 % 0x100]
  }

  function Le32(x: u32): (b: seq<byte>)
    ensures |b| == 4
  {
    [x % 0x100, x / 0x100 % 0x100, x / 0x1_0000 % 0x100, x / 0x100_0000]
  }

  function U16(b: seq<byte>, at: nat): nat
    requires at + 2 <= |b|
  {
    b[at] as int + 0x100 * b[at + 1] as int
  }

  /** nla_get_u32 on a payload of at least four bytes. */
  function U32(b: seq<byte>): u32
    requires |b| >= 4
  {
    b[0] as int + 0x100 * b[1] as int + 0x1_0000 * b[2] as int + 0x100_0000 * b[3] as int
  }

  /** A number is sent with its lowest byte first and comes back. */
  lemma U32OfLe32(x: u32)
    ensures U32(Le32(x)) == x
    ensures x == Le32(x)[0] as int + 0x100 * Le32(x)[1] as int + 0x1_0000 * Le32(x)[2] as int
                 + 0x100_0000 * Le32(x)[3] as int
  {
    var hi := x / 0x100;
    var top := hi / 0x100;
    assert x / 0x1_0000 == top && x / 0x100_0000 == top / 0x100;
    assert x == 0x100 * hi + x % 0x100 && hi == 0x100 * top + hi % 0x100;
  }

  /** A 32-bit number read as an int, and an int written into a 32-bit field. */
  function Signed(x: u32): i32 {
    if x < 0x8000_0000 then x else x as int - 0x1_0000_0000
  }

  function Unsigned(x: int): u32 {
    x % 0x1_0000_0000
  }

  lemma SignedOfUnsigned(x: i32)
    ensures Signed(Unsigned(x)) == x
  {
  }

  function Zeros(n: nat): (b: seq<byte>)
    ensures |b| == n
  {
    seq(n, _ => 0 as byte)
  }

  /** The iterator's getters: they do not look at the length, so an attribute too short for them is read
      together with what follows it, which these functions stand for. */
  datatype Getters = Getters(short32: seq<byte> -> u32, short8: seq<byte> -> byte) {
    /** int x = get_u32() */
    function Get32(p: seq<byte>): int {
      Signed(if |p| >= 4 then U32(p) else short32(p))
    }

    function Get8(p: seq<byte>): int {
      if |p| >= 1 then p[0] else short8(p)
    }
  }

  // ----- walking

  /** One attribute as the iterator shows it. */
  datatype Item = Item(start: nat, ty: nat, payload: seq<byte>)

  /** nla_ok on the bytes that remain. */
  predicate Ok(b: seq<byte>) {
    |b| >= NLA_HDRLEN && NLA_HDRLEN <= U16(b, 0) <= |b|
  }

  function Head(b: seq<byte>, base: nat): Item
    requires Ok(b)
  {
    Item(base, U16(b, 2), b[NLA_HDRLEN..U16(b, 0)])
  }

  /** Everything nl_iterator shows of the bytes b, which lie at offset base. */
  function Walk(b: seq<byte>, base: nat): seq<Item>
    decreases |b|
  {
    if !Ok(b) then []
    else
      var step := Align(U16(b, 0));
      [Head(b, base)] + if step <= |b| then Walk(b[step..], base + step) else []
  }

  /** nl_iterator, over the payload of an attribute. */
  class NlIterator {
    const buf: seq<byte>
    var pos: nat
    var rem: int

    ghost predicate Valid()
      reads this
    {
      rem == |buf| - pos
    }

    /** What is still to be shown. */
    ghost function Rest(): seq<Item>
      reads this
    {
      if pos <= |buf| then Walk(buf[pos..], pos) else []
    }

    constructor (payload: seq<byte>)
      ensures Valid() && buf == payload && pos == 0 && Rest() == Walk(payload, 0)
    {
      buf, pos, rem := payload, 0, |payload|;
      new;
      assert buf[0..] == buf;
    }

    method HasNext() returns (ok: bool)
      requires Valid()
      ensures ok <==> Rest() != []
      ensures ok ==> pos <= |buf| && Ok(buf[pos..])
    {
      ok := rem >= NLA_HDRLEN && NLA_HDRLEN <= U16(buf, pos) <= rem;
      assert rem >= NLA_HDRLEN ==> U16(buf, pos) == U16(buf[pos..], 0);
    }

    method Get() returns (item: Item)
      requires Valid() && Rest() != []
      ensures item == Rest()[0]
    {
      item := Item(pos, U16(buf, pos + 2), buf[pos + NLA_HDRLEN..pos + U16(buf, pos)]);
      assert item == Head(buf[pos..], pos);
    }

    /** The remaining length goes down with every step, so every walk ends. */
    method Next()
      requires Valid() && Rest() != []
      modifies this
      ensures Valid() && Rest() == old(Rest())[1..]
      ensures rem < old(rem) && pos > old(pos)
    {
      assert U16(buf, pos) == U16(buf[pos..], 0);
      var total := Align(U16(buf, pos));
      assert pos + total <= |buf| ==> buf[pos..][total..] == buf[pos + total..];
      rem := rem - total;
      pos := pos + total;
    }
  }

  /** The bytes an attribute takes up, with its padding. */
  function Extent(item: Item): nat {
    Align(NLA_HDRLEN + |item.payload|)
  }

  /** The item, found in bytes at offset base, lies inside them and its payload is what lies there. */
  ghost predicate Inside(b: seq<byte>, base: nat, item: Item) {
    var at := item.start - base + NLA_HDRLEN;
    NLA_HDRLEN <= at <= at + |item.payload| <= |b| && item.payload == b[at..at + |item.payload|]
  }

  lemma InsideSuffix(b: seq<byte>, base: nat, step: nat, item: Item)
    requires step <= |b| && Inside(b[step..], base + step, item)
    ensures Inside(b, base, item)
  {
    var at := item.start - base - step + NLA_HDRLEN;
    assert b[step..][at..at + |item.payload|] == b[at + step..at + step + |item.payload|];
  }

  /** On any bytes, every attribute shown lies inside them. */
  lemma {:induction false} WalkStaysInside(b: seq<byte>, base: nat, i: nat)
    requires i < |Walk(b, base)|
    ensures Inside(b, base, Walk(b, base)[i])
    decreases i
  {
    hide Align, U16;
    if i > 0 {
      hide Inside, Ok;
      var step := Align(U16(b, 0));
      WalkStaysInside(b[step..], base + step, i - 1);
      InsideSuffix(b, base, step, Walk(b, base)[i]);
    }
  }

  /** The attributes shown follow one another from the first byte without gap or overlap. */
  lemma {:induction false} WalkIsContiguous(b: seq<byte>, base: nat, i: nat)
    requires i < |Walk(b, base)|
    ensures i == 0 ==> Walk(b, base)[i].start == base
    ensures i + 1 < |Walk(b, base)| ==>
              Walk(b, base)[i + 1].start == Walk(b, base)[i].start + Extent(Walk(b, base)[i])
    decreases i
  {
    hide Align, U16;
    var step := Align(U16(b, 0));
    if i > 0 {
      WalkIsContiguous(b[step..], base + step, i - 1);
    } else if 1 < |Walk(b, base)| {
      assert Walk(b, base)[1] == Walk(b[step..], base + step)[0];
    }
  }

  /** What a walk shows first, byte by byte: the attribute whose length is in the first two bytes and whose type
      in the next two, if it is whole; the walk goes on at the next multiple of four. */
  lemma WalkStarts(b: seq<byte>, base: nat, len: nat, next: nat)
    requires |b| >= 4 && len == b[0] as int + 0x100 * b[1] as int
    requires next % 4 == 0 && len <= next < len + 4
    ensures Walk(b, base)
         == if 4 <= len <= |b|
            then [Item(base, b[2] as int + 0x100 * b[3] as int, b[4..len])]
                 + if next <= |b| then Walk(b[next..], base + next) else []
            else []
  {
    hide Walk, Align;
    NextIsAligned(len, next);
    WalkUnrolled(b, base);
  }

  lemma NextIsAligned(len: nat, next: nat)
    requires next % 4 == 0 && len <= next < len + 4
    ensures next == Align(len)
  {
  }

  lemma WalkUnrolled(b: seq<byte>, base: nat)
    ensures Walk(b, base)
         == if !Ok(b) then []
            else
              var step := Align(U16(b, 0));
              [Head(b, base)] + if step <= |b| then Walk(b[step..], base + step) else []
  {
    hide Ok, U16, Head, Align;
  }

  // ----- well-formed buffers

  /** An attribute with whatever padding bytes it has. */
  datatype Raw = Raw(ty: nat, payload: seq<byte>, pad: seq<byte>) {
    predicate Valid() {
      ty < 0x1_0000 && NLA_HDRLEN + |payload| < 0x1_0000 && |pad| == Padding(payload)
    }

    function Bytes(): seq<byte> {
      Le16(NLA_HDRLEN + |payload|) + Le16(ty) + payload + pad
    }
  }

  function Layout(raws: seq<Raw>): seq<byte> {
    if raws == [] then [] else raws[0].Bytes() + Layout(raws[1..])
  }

  predicate AllValid(raws: seq<Raw>) {
    forall r :: r in raws ==> r.Valid()
  }

  lemma RawHead(r: Raw, rest: seq<byte>, base: nat)
    requires r.Valid()
    ensures Ok(r.Bytes() + rest) && Align(U16(r.Bytes() + rest, 0)) == |r.Bytes()|
    ensures Head(r.Bytes() + rest, base) == Item(base, r.ty, r.payload)
    ensures (r.Bytes() + rest)[|r.Bytes()|..] == rest && |r.Bytes()| == Align(NLA_HDRLEN + |r.payload|)
  {
    var b := r.Bytes() + rest;
    assert U16(b, 0) == NLA_HDRLEN + |r.payload|;
    assert U16(b, 2) == r.ty;
    assert b[NLA_HDRLEN..NLA_HDRLEN + |r.payload|] == r.payload;
  }

  lemma WalkCons(r: Raw, rest: seq<byte>, base: nat)
    requires r.Valid()
    ensures Walk(r.Bytes() + rest, base) == [Item(base, r.ty, r.payload)] + Walk(rest, base + |r.Bytes()|)
  {
    hide Align, U16, Raw.Valid, Raw.Bytes, Ok, Head;
    RawHead(r, rest, base);
  }

  /** The items are the attributes of the layout, in order. */
  ghost predicate ShowsRaws(items: seq<Item>, raws: seq<Raw>) {
    |items| == |raws|
    && forall i :: 0 <= i < |raws| ==> items[i].ty == raws[i].ty && items[i].payload == raws[i].payload
  }

  lemma ShowsCons(head: Item, items: seq<Item>, raws: seq<Raw>)
    requires raws != [] && head.ty == raws[0].ty && head.payload == raws[0].payload && ShowsRaws(items, raws[1..])
    ensures ShowsRaws([head] + items, raws)
    ensures Covered([head] + items) == Extent(head) + Covered(items)
  {
    assert ([head] + items)[1..] == items;
    forall i | 0 < i < |raws|
      ensures ([head] + items)[i].ty == raws[i].ty && ([head] + items)[i].payload == raws[i].payload
    {
      assert raws[i] == raws[1..][i - 1];
    }
  }

  /** The items show the attributes and take up every byte of them. */
  ghost predicate ShowsAll(items: seq<Item>, raws: seq<Raw>) {
    ShowsRaws(items, raws) && Covered(items) == |Layout(raws)|
  }

  lemma WalkLayoutCons(raws: seq<Raw>, base: nat)
    requires raws != [] && raws[0].Valid()
    requires ShowsAll(Walk(Layout(raws[1..]), base + |raws[0].Bytes()|), raws[1..])
    ensures ShowsAll(Walk(Layout(raws), base), raws)
  {
    hide Align, U16, Raw.Valid, Raw.Bytes, Ok, Head, Walk, ShowsRaws, Covered;
    WalkCons(raws[0], Layout(raws[1..]), base);
    RawHead(raws[0], Layout(raws[1..]), base);
    ShowsCons(Item(base, raws[0].ty, raws[0].payload), Walk(Layout(raws[1..]), base + |raws[0].Bytes()|), raws);
  }

  /** A walk shows every attribute of a well-formed buffer. */
  lemma {:induction false} WalkLayout(raws: seq<Raw>, base: nat)
    requires AllValid(raws)
    ensures ShowsAll(Walk(Layout(raws), base), raws)
  {
    if raws != [] {
      hide Raw.Valid, Raw.Bytes, Walk, Layout, ShowsAll;
      WalkLayout(raws[1..], base + |raws[0].Bytes()|);
      WalkLayoutCons(raws, base);
    }
  }

  /** The bytes that the attributes shown take up together. */
  function Covered(items: seq<Item>): nat {
    if items == [] then 0 else Extent(items[0]) + Covered(items[1..])
  }

  /** A walk takes up the whole buffer if and only if the buffer is a sequence of attributes. */
  lemma WalkCoversWellFormed(b: seq<byte>)
    ensures Covered(Walk(b, 0)) == |b| <==> exists raws :: AllValid(raws) && b == Layout(raws)
  {
    if Covered(Walk(b, 0)) == |b| {
      var raws := Reparse(b, 0);
    }
    if raws :| AllValid(raws) && b == Layout(raws) {
      WalkLayout(raws, 0);
    }
  }

  lemma Le16OfU16(b: seq<byte>, at: nat)
    requires at + 2 <= |b|
    ensures Le16(U16(b, at)) == b[at..at + 2] && U16(b, at) < 0x1_0000
  {
    assert U16(b, at) % 0x100 == b[at] && U16(b, at) / 0x100 == b[at + 1];
  }

  lemma HeadBytes(b: seq<byte>) returns (r: Raw)
    requires Ok(b) && Align(U16(b, 0)) <= |b|
    ensures r.Valid() && |r.Bytes()| == Align(U16(b, 0)) && b == r.Bytes() + b[Align(U16(b, 0))..]
  {
    hide Align, U16, Le16;
    var len := U16(b, 0);
    var step := Align(len);
    Le16OfU16(b, 0);
    Le16OfU16(b, 2);
    r := Raw(U16(b, 2), b[NLA_HDRLEN..len], b[len..step]);
    assert r.Bytes() == b[0..2] + b[2..4] + b[4..len] + b[len..step];
    assert b == b[0..2] + b[2..4] + b[4..len] + b[len..step] + b[step..];
  }

  lemma {:induction false} Reparse(b: seq<byte>, base: nat) returns (raws: seq<Raw>)
    requires Covered(Walk(b, base)) == |b|
    ensures AllValid(raws) && b == Layout(raws)
    decreases |b|
  {
    hide Align, U16, Raw.Valid, Raw.Bytes;
    if b == [] {
      raws := [];
    } else {
      var step := Align(U16(b, 0));
      assert Walk(b, base)[0] == Head(b, base);
      assert Walk(b, base)[1..] == if step <= |b| then Walk(b[step..], base + step) else [];
      var head := HeadBytes(b);
      var tail := Reparse(b[step..], base + step);
      raws := [head] + tail;
      assert raws[1..] == tail;
    }
  }

  // ----- attribute trees

  datatype Attr = Leaf(ty: nat, data: seq<byte>) | Nest(ty: nat, children: seq<Attr>) {
    function Body(): seq<byte>
      decreases this, 0
    {
      match this
      case Leaf(_, data) => data
      case Nest(_, children) => EncodeAll(children)
    }

    /** The attribute with zero padding, as nla_put and nla_nest_end leave it. */
    function ToRaw(): Raw
      decreases this, 1
    {
      Raw(ty, Body(), Zeros(Padding(Body())))
    }

    function Encode(): seq<byte>
      decreases this, 2
    {
      ToRaw().Bytes()
    }

    /** Every type and length in the tree fits its 16 bits. */
    predicate Fits() {
      ToRaw().Valid() && (Nest? ==> forall c :: c in children ==> c.Fits())
    }
  }

  function EncodeAll(attrs: seq<Attr>): seq<byte>
    decreases attrs, 3
  {
    if attrs == [] then [] else attrs[0].Encode() + EncodeAll(attrs[1..])
  }

  lemma EncodeBytes(a: Attr)
    ensures a.Encode() == Le16(NLA_HDRLEN + |a.Body()|) + Le16(a.ty) + a.Body() + Zeros(Padding(a.Body()))
    ensures |a.Encode()| == Align(NLA_HDRLEN + |a.Body()|)
  {
    assert a.ToRaw() == Raw(a.ty, a.Body(), Zeros(Padding(a.Body())));
  }

  /** The bytes of an attribute: its length and its type, each the lower byte first, its body, and zeros up to a
      multiple of four. */
  lemma AttributeBytes(a: Attr)
    requires a.Fits()
    ensures var e, n := a.Encode(), 4 + |a.Body()|;
            && |e| % 4 == 0 && n <= |e| < n + 4
            && e[0] as int + 0x100 * e[1] as int == n && e[2] as int + 0x100 * e[3] as int == a.ty
            && e[4..n] == a.Body() && forall k :: n <= k < |e| ==> e[k] == 0
  {
    EncodeBytes(a);
    hide Attr.Encode, Attr.Body;
    assert a.ToRaw().Valid();
    var e, n := a.Encode(), 4 + |a.Body()|;
    Le16Bytes(n);
    Le16Bytes(a.ty);
    assert e[0] == Le16(n)[0] && e[1] == Le16(n)[1] && e[2] == Le16(a.ty)[0] && e[3] == Le16(a.ty)[1];
  }

  lemma Le16Bytes(x: nat)
    requires x < 0x1_0000
    ensures Le16(x)[0] as int + 0x100 * Le16(x)[1] as int == x
  {
  }

  lemma {:induction false} EncodeAllAppend(attrs: seq<Attr>, a: Attr)
    ensures EncodeAll(attrs + [a]) == EncodeAll(attrs) + a.Encode()
  {
    hide Attr.Encode;
    if attrs == [] {
      assert [a][1..] == [] && EncodeAll([]) == [];
    } else {
      EncodeAllAppend(attrs[1..], a);
      assert (attrs + [a])[1..] == attrs[1..] + [a];
    }
  }

  lemma {:induction false} EncodeAllConcat(s: seq<Attr>, t: seq<Attr>)
    ensures EncodeAll(s + t) == EncodeAll(s) + EncodeAll(t)
  {
    hide Attr.Encode;
    if s == [] {
      assert s + t == t;
    } else {
      EncodeAllConcat(s[1..], t);
      assert (s + t)[1..] == s[1..] + t;
    }
  }

  lemma {:induction false} EncodeAllAligned(attrs: seq<Attr>)
    ensures |EncodeAll(attrs)| % 4 == 0
  {
    if attrs != [] {
      EncodeAllAligned(attrs[1..]);
      EncodeBytes(attrs[0]);
    }
  }

  /** The items are the attributes, and walking into each nested one gives its children. */
  predicate Shows(items: seq<Item>, attrs: seq<Attr>)
    decreases attrs
  {
    |items| == |attrs|
    && forall i :: 0 <= i < |attrs| ==>
         items[i].ty == attrs[i].ty
         && match attrs[i]
            case Leaf(_, data) => items[i].payload == data
            case Nest(_, children) => Shows(Walk(items[i].payload, 0), children)
  }

  function Raws(attrs: seq<Attr>): seq<Raw> {
    seq(|attrs|, i requires 0 <= i < |attrs| => attrs[i].ToRaw())
  }

  lemma {:induction false} EncodeAllIsLayout(attrs: seq<Attr>)
    ensures EncodeAll(attrs) == Layout(Raws(attrs))
  {
    if attrs != [] {
      EncodeAllIsLayout(attrs[1..]);
      assert Raws(attrs)[1..] == Raws(attrs[1..]);
    }
  }

  /** Round trip: walking the bytes of any tree, and walking into the nested attributes, gives the tree. */
  lemma {:induction false} WalkShowsTree(attrs: seq<Attr>, base: nat)
    requires forall a :: a in attrs ==> a.Fits()
    ensures Shows(Walk(EncodeAll(attrs), base), attrs)
    decreases attrs
  {
    EncodeAllIsLayout(attrs);
    forall r | r in Raws(attrs) ensures r.Valid() {
      var i :| 0 <= i < |attrs| && r == attrs[i].ToRaw();
      assert attrs[i].Fits();
    }
    WalkLayout(Raws(attrs), base);
    var items := Walk(EncodeAll(attrs), base);
    forall i | 0 <= i < |attrs|
      ensures items[i].ty == attrs[i].ty && items[i].payload == attrs[i].Body()
      ensures attrs[i].Nest? ==> Shows(Walk(items[i].payload, 0), attrs[i].children)
    {
      assert Raws(attrs)[i] == attrs[i].ToRaw() && attrs[i].Fits();
      if attrs[i].Nest? {
        WalkShowsTree(attrs[i].children, 0);
      }
    }
  }
}
