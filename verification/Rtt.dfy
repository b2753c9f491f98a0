/** RttCommand: results arrive over any number of events, each result in a buffer of its own, until the
    driver says it is done or a buffer cannot be allocated. */
module Rtt {
  import opened Assoc
  import opened Netlink

  const MAX_RESULTS: nat := 1024

  const RESULTS_COMPLETE: nat := 30
  const RESULTS_PER_TARGET: nat := 31
  const RESULT: nat := 33

  const MEASURE_REQUEST_ID: nat := 38
  const MEASURE_TYPE_LCI: nat := 8
  const MEASURE_TYPE_CIVICLOC: nat := 11
  const RM_IE_LEN: nat := 5
  const DOT11_HDR_LEN: nat := 2

  /** A result: the allocation it lives in, the bytes copied, and where in them the two optional elements are
      (None where the copied pointer was left as it is). */
  datatype Result = Result(buffer: nat, data: seq<byte>, lci: Option<nat>, lcr: Option<nat>)

  /** The size of a record, which a header outside the repository fixes; whether the k-th allocation
      succeeds; what lies in memory beyond the end of that buffer; and the getters. */
  datatype Env = Env(recordSize: nat, grant: nat -> bool, beyond: (nat, nat) -> byte, get: Getters)

  // ----- the elements that follow a record

  function At(env: Env, k: nat, data: seq<byte>, i: nat): byte {
    if i < |data| then data[i] else env.beyond(k, i)
  }

  function Id(env: Env, k: nat, data: seq<byte>, at: nat): byte {
    At(env, k, data, at)
  }

  function Type(env: Env, k: nat, data: seq<byte>, at: nat): byte {
    At(env, k, data, at + 4)
  }

  /** Where the element after the one at this offset starts. */
  function After(env: Env, k: nat, data: seq<byte>, at: nat): nat {
    at + At(env, k, data, at + 1) as nat + DOT11_HDR_LEN
  }

  predicate IsElement(env: Env, k: nat, data: seq<byte>, at: nat, ty: nat) {
    Id(env, k, data, at) == MEASURE_REQUEST_ID && Type(env, k, data, at) == ty
  }

  /** An element of each kind is looked for: the first right after the record, when there is anything there;
      a second, of the other kind, after it, when `examined` says so. */
  function Parsed(env: Env, k: nat, data: seq<byte>, examined: nat -> bool): Result {
    var first := env.recordSize;
    var second := After(env, k, data, first);
    var none := Result(k, data, None, None);
    if |data| <= first then none
    else if IsElement(env, k, data, first, MEASURE_TYPE_LCI) then
      none.(lci := Some(first),
            lcr := if examined(second) && IsElement(env, k, data, second, MEASURE_TYPE_CIVICLOC) then Some(second)
                   else None)
    else if IsElement(env, k, data, first, MEASURE_TYPE_CIVICLOC) then
      none.(lci := if examined(second) && IsElement(env, k, data, second, MEASURE_TYPE_LCI) then Some(second) else None,
            lcr := Some(first))
    else none
  }

  /** What the code stores: because the record size is taken off twice, a second element is examined only if
      more than a record's size of bytes is left where it starts. */
  function Stored(env: Env, k: nat, data: seq<byte>): Result {
    Parsed(env, k, data, at => at + env.recordSize < |data|)
  }

  /** What taking the record size off once would store: a second element is examined if it starts inside. */
  function Intended(env: Env, k: nat, data: seq<byte>): Result {
    Parsed(env, k, data, at => at < |data|)
  }

  /** The search for the elements, with its running count of the bytes left. */
  method FindElements(env: Env, k: nat, data: seq<byte>) returns (r: Result)
    ensures r == Stored(env, k, data)
  {
    var lci, lcr := None, None;
    var resultLen := |data|;
    resultLen := resultLen - env.recordSize;
    if resultLen > 0 {
      resultLen := resultLen - env.recordSize;
      var first := env.recordSize;
      if At(env, k, data, first) == MEASURE_REQUEST_ID {
        if At(env, k, data, first + 4) == MEASURE_TYPE_LCI {
          lci := Some(first);
          resultLen := resultLen - (At(env, k, data, first + 1) + DOT11_HDR_LEN);
          if resultLen > 0 {
            var second := first + (At(env, k, data, first + 1) + DOT11_HDR_LEN);
            if At(env, k, data, second) == MEASURE_REQUEST_ID && At(env, k, data, second + 4) == MEASURE_TYPE_CIVICLOC {
              lcr := Some(second);
            }
          }
        } else if At(env, k, data, first + 4) == MEASURE_TYPE_CIVICLOC {
          lcr := Some(first);
          resultLen := resultLen - (At(env, k, data, first + 1) + DOT11_HDR_LEN);
          if resultLen > 0 {
            var second := first + (At(env, k, data, first + 1) + DOT11_HDR_LEN);
            if At(env, k, data, second) == MEASURE_REQUEST_ID && At(env, k, data, second + 4) == MEASURE_TYPE_LCI {
              lci := Some(second);
            }
          }
        }
      }
    }
    r := Result(k, data, lci, lcr);
  }

  /** The two pointers never name the same element, and each names an element of its own kind; nothing is
      named unless something follows the record. */
  lemma ElementsAreApart(env: Env, k: nat, data: seq<byte>)
    ensures var r := Stored(env, k, data);
            && (r.lci.Some? ==> IsElement(env, k, data, r.lci.value, MEASURE_TYPE_LCI) && r.lci.value < |data|)
            && (r.lcr.Some? ==> IsElement(env, k, data, r.lcr.value, MEASURE_TYPE_CIVICLOC) && r.lcr.value < |data|)
            && (r.lci.Some? && r.lcr.Some? ==> r.lci != r.lcr)
            && (r.lci.Some? || r.lcr.Some? ==> Some(env.recordSize) in [r.lci, r.lcr])
  {
  }

  /** The double subtraction matters exactly when a well-formed second element of the other kind starts
      inside the data with no more than a record's size of bytes left. */
  lemma SecondElementLost(env: Env, k: nat, data: seq<byte>)
    ensures Stored(env, k, data) != Intended(env, k, data)
        <==> var first := env.recordSize;
             var second := After(env, k, data, first);
             && 0 < |data| - second <= env.recordSize
             && (|| (IsElement(env, k, data, first, MEASURE_TYPE_LCI)
                     && IsElement(env, k, data, second, MEASURE_TYPE_CIVICLOC))
                 || (IsElement(env, k, data, first, MEASURE_TYPE_CIVICLOC)
                     && IsElement(env, k, data, second, MEASURE_TYPE_LCI)))
  {
  }

  /** What is stored depends on memory past the end of the buffer exactly when the bytes after the record
      begin an element but are too few for its fixed part. */
  lemma DependsOnMemoryBeyond(env: Env, k: nat, data: seq<byte>)
    requires env.recordSize >= RM_IE_LEN
    ensures (exists other: (nat, nat) -> byte :: Stored(env.(beyond := other), k, data) != Stored(env, k, data))
        <==> env.recordSize < |data| < env.recordSize + RM_IE_LEN && data[env.recordSize] == MEASURE_REQUEST_ID
  {
    var first := env.recordSize;
    if first < |data| < first + RM_IE_LEN && data[first] == MEASURE_REQUEST_ID {
      var lci: (nat, nat) -> byte := (_, _) => 8;
      var civic: (nat, nat) -> byte := (_, _) => 11;
      assert Stored(env.(beyond := lci), k, data).lci == Some(first);
      assert Stored(env.(beyond := civic), k, data).lcr == Some(first);
      assert Stored(env.(beyond := civic), k, data).lci == None;
      if Stored(env, k, data) == Stored(env.(beyond := lci), k, data) {
        assert Stored(env.(beyond := civic), k, data) != Stored(env, k, data);
      } else {
        assert Stored(env.(beyond := lci), k, data) != Stored(env, k, data);
      }
    } else {
      forall other: (nat, nat) -> byte ensures Stored(env.(beyond := other), k, data) == Stored(env, k, data) {
        SameInside(env, other, k, data);
      }
    }
  }

  lemma SameInside(env: Env, other: (nat, nat) -> byte, k: nat, data: seq<byte>)
    requires env.recordSize >= RM_IE_LEN
    requires !(env.recordSize < |data| < env.recordSize + RM_IE_LEN && data[env.recordSize] == MEASURE_REQUEST_ID)
    ensures Stored(env.(beyond := other), k, data) == Stored(env, k, data)
  {
  }

  /** A measurement element as a driver builds it: identifier 38, the number of bytes that follow the length,
      token, mode, type, and its body. */
  function Built(ty: byte, token: byte, mode: byte, body: seq<byte>): (e: seq<byte>)
    requires |body| + 3 < 0x100
    ensures |e| == 5 + |body|
  {
    [38, |body| + 3, token, mode, ty] + body
  }

  /** Round trip: the elements built behind a record are found where they are, in either order; the second one
      unless no more than a record's size of bytes begins with it. */
  lemma BuiltElementsFound(env: Env, k: nat, record: seq<byte>, tail: seq<byte>,
                           t1: byte, m1: byte, body1: seq<byte>, t2: byte, m2: byte, body2: seq<byte>)
    requires |record| == env.recordSize && |body1| + 3 < 0x100 && |body2| + 3 < 0x100
    ensures var lci, civic := Built(8, t1, m1, body1), Built(11, t2, m2, body2);
            var data := record + lci + civic + tail;
            Stored(env, k, data)
            == Result(k, data, Some(|record|), if |civic| + |tail| <= |record| then None else Some(|record| + |lci|))
    ensures var civic, lci := Built(11, t1, m1, body1), Built(8, t2, m2, body2);
            var data := record + civic + lci + tail;
            Stored(env, k, data)
            == Result(k, data, if |lci| + |tail| <= |record| then None else Some(|record| + |civic|), Some(|record|))
  {
    var first, second := Built(8, t1, m1, body1), Built(11, t2, m2, body2);
    BuiltAt(record, first, second + tail);
    BuiltAt(record + first, second, tail);
    assert record + first + second + tail == record + first + (second + tail);
    first, second := Built(11, t1, m1, body1), Built(8, t2, m2, body2);
    BuiltAt(record, first, second + tail);
    BuiltAt(record + first, second, tail);
    assert record + first + second + tail == record + first + (second + tail);
  }

  lemma BuiltAt(front: seq<byte>, e: seq<byte>, tail: seq<byte>)
    requires |e| >= 5
    ensures var data := front + e + tail;
            data[|front|] == e[0] && data[|front| + 1] == e[1] && data[|front| + 4] == e[4]
  {
  }

  /** One element alone is found alone, whatever follows that does not begin one of the other kind. */
  lemma OneElementFound(env: Env, k: nat, record: seq<byte>, tail: seq<byte>, t: byte, m: byte, body: seq<byte>)
    requires |record| == env.recordSize && |body| + 3 < 0x100
    ensures var data := record + Built(8, t, m, body) + tail;
            |tail| <= |record| || (|tail| >= 5 && (tail[0] != 38 || tail[4] != 11)) ==>
              Stored(env, k, data) == Result(k, data, Some(|record|), None)
    ensures var data := record + Built(11, t, m, body) + tail;
            |tail| <= |record| || (|tail| >= 5 && (tail[0] != 38 || tail[4] != 8)) ==>
              Stored(env, k, data) == Result(k, data, None, Some(|record|))
  {
    BuiltAt(record, Built(8, t, m, body), tail);
    BuiltAt(record, Built(11, t, m, body), tail);
    if |tail| >= 5 {
      BuiltAt(record + Built(8, t, m, body), tail, []);
      BuiltAt(record + Built(11, t, m, body), tail, []);
      assert record + Built(8, t, m, body) + tail + [] == record + Built(8, t, m, body) + tail;
      assert record + Built(11, t, m, body) + tail + [] == record + Built(11, t, m, body) + tail;
    }
  }

  /** A record alone, or followed by something else, has no element. */
  lemma NoElementFound(env: Env, k: nat, record: seq<byte>, rest: seq<byte>)
    requires |record| == env.recordSize
    requires rest == [] || (|rest| >= 5 && (rest[0] != 38 || rest[4] !in [8, 11]))
    ensures Stored(env, k, record + rest) == Result(k, record + rest, None, None)
  {
  }

  // ----- what the events leave, as values

  /** The results held, the completed flag, how many allocations were asked for, and whether a result was
      about to be put past the end of the array. */
  datatype Measurement = Measurement(results: seq<Result>, completed: int, mallocs: nat, overran: bool)

  datatype Progress = Progress(m: Measurement, stopped: bool)

  function InnerStep(env: Env, s: Progress, item: Item): Progress {
    if s.stopped || item.ty != RESULT then s
    else if |s.m.results| >= MAX_RESULTS then Progress(s.m.(overran := true), true)
    else if !env.grant(s.m.mallocs) then Progress(s.m.(completed := 1, mallocs := s.m.mallocs + 1), true)
    else s.(m := s.m.(results := s.m.results + [Stored(env, s.m.mallocs, item.payload)], mallocs := s.m.mallocs + 1))
  }

  function Inner(env: Env, s: Progress, items: seq<Item>): Progress
    decreases |items|
  {
    if items == [] then s else Inner(env, InnerStep(env, s, items[0]), items[1..])
  }

  function OuterStep(env: Env, m: Measurement, item: Item): Measurement {
    if m.overran then m
    else if item.ty == RESULTS_COMPLETE then m.(completed := env.get.Get32(item.payload))
    else if item.ty == RESULTS_PER_TARGET then Inner(env, Progress(m, false), Walk(item.payload, 0)).m
    else m
  }

  function Outer(env: Env, m: Measurement, items: seq<Item>): Measurement
    decreases |items|
  {
    if items == [] then m else Outer(env, OuterStep(env, m, items[0]), items[1..])
  }

  function Collected(env: Env, m: Measurement, payload: seq<byte>): Measurement {
    Outer(env, m, Walk(payload, 0))
  }

  /** Once the flag is set the results are reported and dropped. */
  function Settled(m: Measurement): Measurement {
    if m.completed != 0 then m.(results := []) else m
  }

  lemma {:induction false} StoppedInner(env: Env, s: Progress, items: seq<Item>)
    requires s.stopped
    ensures Inner(env, s, items) == s
    decreases |items|
  {
    if items != [] {
      StoppedInner(env, s, items[1..]);
    }
  }

  /** A step that stopped is the end, and one that put something past the array has stopped. */
  lemma {:induction false} InnerAfter(env: Env, s: Progress, items: seq<Item>)
    ensures s.stopped ==> Inner(env, s, items) == s
    ensures s.m.overran ==> Inner(env, s, items).m.overran
    decreases |items|
  {
    hide Stored;
    if items != [] {
      InnerAfter(env, InnerStep(env, s, items[0]), items[1..]);
    }
  }

  lemma {:induction false} OverranOuter(env: Env, m: Measurement, items: seq<Item>)
    requires m.overran
    ensures Outer(env, m, items) == m
    decreases |items|
  {
    if items != [] {
      OverranOuter(env, m, items[1..]);
    }
  }

  // ----- buffers

  /** malloc and free: buffers have names never used before, and only a live one can be freed. */
  class Heap {
    const grant: nat -> bool
    var live: map<nat, Result>
    var mallocs: nat

    ghost predicate Valid()
      reads this
    {
      forall p :: p in live ==> p < mallocs
    }

    method Malloc() returns (p: Option<nat>)
      requires Valid()
      modifies this
      ensures Valid() && mallocs == old(mallocs) + 1
      ensures p == if grant(old(mallocs)) then Some(old(mallocs)) else None
      ensures live == if p.Some? then old(live)[p.value := Result(p.value, [], None, None)] else old(live)
    {
      if grant(mallocs) {
        p := Some(mallocs);
        live := live[mallocs := Result(mallocs, [], None, None)];
      } else {
        p := None;
      }
      mallocs := mallocs + 1;
    }

    method Write(p: nat, r: Result)
      requires Valid() && p in live
      modifies this`live
      ensures Valid() && live == old(live)[p := r]
    {
      live := live[p := r];
    }

    method Free(p: nat)
      requires Valid() && p in live
      modifies this`live
      ensures Valid() && live == old(live) - {p}
    {
      live := live - {p};
    }
  }

  ghost predicate AllLive(live: map<nat, Result>, slots: seq<Option<nat>>) {
    forall i :: 0 <= i < |slots| ==>
      slots[i].Some? && slots[i].value in live && live[slots[i].value].buffer == slots[i].value
  }

  ghost predicate AllDistinct(slots: seq<Option<nat>>) {
    forall i, j :: 0 <= i < j < |slots| ==> slots[i] != slots[j]
  }

  function Contents(live: map<nat, Result>, slots: seq<Option<nat>>): (r: seq<Result>)
    requires AllLive(live, slots)
    ensures |r| == |slots|
  {
    seq(|slots|, i requires 0 <= i < |slots| => live[slots[i].value])
  }

  ghost function Names(slots: seq<Option<nat>>): set<nat> {
    set i | 0 <= i < |slots| && slots[i].Some? :: slots[i].value
  }

  lemma SlotAdded(live: map<nat, Result>, slots: seq<Option<nat>>, p: nat, r: Result)
    requires AllLive(live, slots) && AllDistinct(slots) && p !in live && r.buffer == p
    ensures AllLive(live[p := r], slots + [Some(p)]) && AllDistinct(slots + [Some(p)])
    ensures Contents(live[p := r], slots + [Some(p)]) == Contents(live, slots) + [r]
    ensures live[p := r] - Names(slots + [Some(p)]) == live - Names(slots)
  {
    NamesAdded(slots, p);
  }

  lemma NamesAdded(slots: seq<Option<nat>>, p: nat)
    ensures Names(slots + [Some(p)]) == Names(slots) + {p}
  {
    var more := slots + [Some(p)];
    forall q | q in Names(slots) + {p} ensures q in Names(more) {
      if q in Names(slots) {
        var i :| 0 <= i < |slots| && slots[i] == Some(q);
        assert more[i] == Some(q);
      } else {
        assert more[|slots|] == Some(q);
      }
    }
  }

  // ----- the command

  class RttCommand {
    const env: Env
    const heap: Heap
    const rttResults: array<Option<nat>>
    var currentIdx: nat
    var totalCnt: nat
    var mCompleted: int

    /** Both counters agree, and the slots below them hold distinct live buffers. */
    ghost predicate Valid()
      reads this, heap, rttResults
    {
      && heap.Valid() && heap.grant == env.grant
      && rttResults.Length == MAX_RESULTS
      && currentIdx == totalCnt <= MAX_RESULTS
      && AllLive(heap.live, rttResults[..currentIdx])
      && AllDistinct(rttResults[..currentIdx])
    }

    ghost function State(): Measurement
      reads this, heap, rttResults
      requires Valid()
    {
      Measurement(Contents(heap.live, rttResults[..currentIdx]), mCompleted, heap.mallocs, false)
    }

    /** The live buffers that are not the command's. */
    ghost function Others(): map<nat, Result>
      reads this, heap, rttResults
      requires Valid()
    {
      heap.live - Names(rttResults[..currentIdx])
    }

    constructor (env: Env, heap: Heap)
      requires heap.Valid() && heap.grant == env.grant
      ensures Valid() && this.env == env && this.heap == heap && fresh(rttResults)
      ensures State() == Measurement([], 0, heap.mallocs, false) && Others() == heap.live
    {
      this.env, this.heap, currentIdx, totalCnt, mCompleted := env, heap, 0, 0, 0;
      rttResults := new Option<nat>[MAX_RESULTS](_ => None);
    }

    /** One result attribute; not ok when its buffer could not be allocated. The code stores the buffer without
        looking at the array's size: `fault` says that it would be stored past its end, and then nothing is
        promised for the code. */
    method HandleResult(payload: seq<byte>) returns (ok: bool, fault: bool)
      requires Valid()
      modifies this, heap, rttResults
      ensures Valid() && Others() == old(Others())
      ensures var next := InnerStep(env, Progress(old(State()), false), Item(0, RESULT, payload));
              (fault <==> next.m.overran) && (!fault ==> Progress(State(), !ok) == next)
    {
      if currentIdx >= MAX_RESULTS {
        return false, true;
      }
      ghost var live, slots := heap.live, rttResults[..currentIdx];
      var k := heap.mallocs;
      var p := heap.Malloc();
      rttResults[currentIdx] := p;
      assert rttResults[..currentIdx] == slots;
      if p == None {
        mCompleted := 1;
        return false, false;
      }
      var r := FindElements(env, k, payload);
      heap.Write(p.value, r);
      assert heap.live == live[k := r];
      SlotAdded(live, slots, k, r);
      totalCnt := totalCnt + 1;
      assert rttResults[..currentIdx + 1] == slots + [Some(k)];
      currentIdx := currentIdx + 1;
      return true, false;
    }

    /** One attribute of a target. */
    method HandleAttr(item: Item) returns (ok: bool, fault: bool)
      requires Valid()
      modifies this, heap, rttResults
      ensures Valid() && Others() == old(Others())
      ensures var next := InnerStep(env, Progress(old(State()), false), item);
              (fault <==> next.m.overran) && (!fault ==> Progress(State(), !ok) == next)
    {
      hide Stored, AllLive, AllDistinct, Names;
      ok, fault := true, false;
      if item.ty == RESULT {
        ok, fault := HandleResult(item.payload);
      }
    }

    method HandleTarget(payload: seq<byte>) returns (fault: bool)
      requires Valid()
      modifies this, heap, rttResults
      ensures Valid() && Others() == old(Others())
      ensures var after := Inner(env, Progress(old(State()), false), Walk(payload, 0)).m;
              (fault <==> after.overran) && (!fault ==> State() == after)
    {
      hide InnerStep, AllLive, AllDistinct, Contents, Names;
      fault := false;
      ghost var whole := Inner(env, Progress(State(), false), Walk(payload, 0));
      var it := new NlIterator(payload);
      var more := it.HasNext();
      while more
        invariant it.Valid() && fresh(it) && Valid() && Others() == old(Others()) && !fault
        invariant more <==> it.Rest() != []
        invariant whole == Inner(env, Progress(State(), false), it.Rest())
        decreases it.rem
      {
        var item := it.Get();
        ghost var next := InnerStep(env, Progress(State(), false), item);
        InnerAfter(env, next, it.Rest()[1..]);
        var ok;
        ok, fault := HandleAttr(item);
        if !ok || fault {
          break;
        }
        it.Next();
        more := it.HasNext();
      }
    }

    /** The callback's arguments are the count and the buffers as they are then; afterwards each buffer is
        freed, every other one is left alone, and both counters are zero. An event without vendor data is
        iterated over all the same, which reads through a null pointer; that and a result past the array are
        the faults. */
    method HandleEvent(vendorData: Option<seq<byte>>) returns (reported: Option<seq<Result>>, fault: bool)
      requires Valid()
      modifies this, heap, rttResults
      ensures Valid() && Others() == old(Others())
      ensures fault <==> vendorData.None? || Collected(env, old(State()), vendorData.value).overran
      ensures !fault ==>
                var m := Collected(env, old(State()), vendorData.value);
                && State() == Settled(m)
                && reported == if m.completed != 0 then Some(m.results) else None
      ensures reported.Some? ==> currentIdx == totalCnt == 0 && heap.live == Others()
    {
      hide Stored, AllDistinct, Contents, Names;
      reported := None;
      if vendorData == None {
        return None, true;
      }
      fault := Collect(vendorData.value);
      if fault {
        return;
      }
      if mCompleted != 0 {
        reported := Some(Contents(heap.live, rttResults[..totalCnt]));
        FreeAll();
      }
    }

    /** One attribute of the event. */
    method HandleTop(item: Item) returns (fault: bool)
      requires Valid()
      modifies this, heap, rttResults
      ensures Valid() && Others() == old(Others())
      ensures var m := OuterStep(env, old(State()), item); (fault <==> m.overran) && (!fault ==> State() == m)
    {
      hide AllLive, AllDistinct, Contents, Names, Inner;
      fault := false;
      if item.ty == RESULTS_COMPLETE {
        mCompleted := env.get.Get32(item.payload);
      } else if item.ty == RESULTS_PER_TARGET {
        fault := HandleTarget(item.payload);
      }
    }

    method Collect(payload: seq<byte>) returns (fault: bool)
      requires Valid()
      modifies this, heap, rttResults
      ensures Valid() && Others() == old(Others())
      ensures var m := Collected(env, old(State()), payload);
              (fault <==> m.overran) && (!fault ==> State() == m)
    {
      hide OuterStep, AllLive, AllDistinct, Contents, Names;
      fault := false;
      ghost var whole := Collected(env, State(), payload);
      var it := new NlIterator(payload);
      var more := it.HasNext();
      while more
        invariant it.Valid() && fresh(it) && Valid() && Others() == old(Others()) && !fault
        invariant more <==> it.Rest() != []
        invariant whole == Outer(env, State(), it.Rest())
        decreases it.rem
      {
        var item := it.Get();
        ghost var next := OuterStep(env, State(), item);
        if next.overran {
          OverranOuter(env, next, it.Rest()[1..]);
        }
        fault := HandleTop(item);
        if fault {
          break;
        }
        it.Next();
        more := it.HasNext();
      }
    }

    method FreeAll()
      requires Valid()
      modifies this, heap, rttResults
      ensures Valid() && currentIdx == totalCnt == 0 && mCompleted == old(mCompleted)
      ensures State() == old(State()).(results := []) && heap.live == Others() == old(Others())
    {
      ghost var slots := rttResults[..currentIdx];
      for i := 0 to currentIdx
        invariant heap.Valid() && currentIdx == old(currentIdx) && heap.mallocs == old(heap.mallocs)
        invariant mCompleted == old(mCompleted)
        invariant heap.live == old(heap.live) - Names(slots[..i])
        invariant forall j :: i <= j < currentIdx ==> rttResults[j] == slots[j]
      {
        NamesAdded(slots[..i], slots[i].value);
        assert slots[..i + 1] == slots[..i] + [slots[i]];
        heap.Free(rttResults[i].value);
        rttResults[i] := None;
      }
      assert slots[..currentIdx] == slots;
      totalCnt, currentIdx := 0, 0;
    }
  }

  // ----- what the driver sent, and what became of it

  /** The result attributes of one target, in order. */
  function TargetResults(items: seq<Item>): seq<seq<byte>>
    decreases |items|
  {
    if items == [] then []
    else (if items[0].ty == 33 then [items[0].payload] else []) + TargetResults(items[1..])
  }

  /** The results an attribute of an event holds. */
  function ResultsOf(item: Item): seq<seq<byte>> {
    if item.ty == 31 then TargetResults(Walk(item.payload, 0)) else []
  }

  function SentBy(items: seq<Item>): seq<seq<byte>>
    decreases |items|
  {
    if items == [] then [] else ResultsOf(items[0]) + SentBy(items[1..])
  }

  /** How many of n allocations in a row succeed before one fails. */
  function Leading(grant: nat -> bool, from: nat, n: nat): (k: nat)
    ensures k <= n
    ensures forall j :: from <= j < from + k ==> grant(j)
    ensures k < n ==> !grant(from + k)
    decreases n
  {
    if n == 0 || !grant(from) then 0 else 1 + Leading(grant, from + 1, n - 1)
  }

  /** Some allocation for these results fails. */
  predicate Refused(grant: nat -> bool, from: nat, sent: seq<seq<byte>>) {
    Leading(grant, from, |sent|) < |sent|
  }

  /** The results of a target that an allocation is asked for: up to the first that fails, which ends it. */
  function AskedIn(grant: nat -> bool, from: nat, sent: seq<seq<byte>>): (a: seq<seq<byte>>)
    ensures |a| == if Refused(grant, from, sent) then Leading(grant, from, |sent|) + 1 else |sent|
  {
    sent[..if Refused(grant, from, sent) then Leading(grant, from, |sent|) + 1 else |sent|]
  }

  function Asked(grant: nat -> bool, from: nat, items: seq<Item>): seq<seq<byte>>
    decreases |items|
  {
    if items == [] then []
    else
      var a := AskedIn(grant, from, ResultsOf(items[0]));
      a + Asked(grant, from + |a|, items[1..])
  }

  /** What the allocations from..from + |asked| make of the results they are asked for. */
  function Made(env: Env, from: nat, asked: seq<seq<byte>>): (r: seq<Result>)
    ensures |r| <= |asked|
    decreases |asked|
  {
    if asked == [] then []
    else (if env.grant(from) then [Stored(env, from, asked[0])] else []) + Made(env, from + 1, asked[1..])
  }

  /** One result for each allocation that succeeds and for no other, in order, made from what that allocation
      was asked for. */
  lemma MadeSpec(env: Env, from: nat, asked: seq<seq<byte>>)
    ensures var made := Made(env, from, asked);
            && (forall i, j :: 0 <= i < j < |made| ==> made[i].buffer < made[j].buffer)
            && (forall i :: 0 <= i < |made| ==>
                  from <= made[i].buffer < from + |asked| && env.grant(made[i].buffer)
                  && made[i] == Stored(env, made[i].buffer, asked[made[i].buffer - from]))
            && (forall k :: from <= k < from + |asked| && env.grant(k) ==>
                  exists i :: 0 <= i < |made| && made[i].buffer == k)
  {
    hide Stored, Made;
    var made := Made(env, from, asked);
    forall i, j | 0 <= i < j < |made| ensures made[i].buffer < made[j].buffer {
      MadeInOrder(env, from, asked, i, j);
    }
    forall i | 0 <= i < |made|
      ensures from <= made[i].buffer < from + |asked| && env.grant(made[i].buffer)
      ensures made[i] == Stored(env, made[i].buffer, asked[made[i].buffer - from])
    {
      MadeFrom(env, from, asked, i);
    }
    forall k | from <= k < from + |asked| && env.grant(k) ensures exists i :: 0 <= i < |made| && made[i].buffer == k {
      var i := MadeFor(env, from, asked, k);
    }
  }

  lemma {:induction false} MadeFrom(env: Env, from: nat, asked: seq<seq<byte>>, i: nat)
    requires i < |Made(env, from, asked)|
    ensures var r := Made(env, from, asked)[i];
            && from <= r.buffer < from + |asked|
            && env.grant(r.buffer) && r == Stored(env, r.buffer, asked[r.buffer - from])
    decreases |asked|
  {
    StoredData(env, from, asked[0]);
    hide Stored;
    var first := if env.grant(from) then 1 else 0;
    if i >= first {
      MadeFrom(env, from + 1, asked[1..], i - first);
      assert Made(env, from, asked)[i] == Made(env, from + 1, asked[1..])[i - first];
    }
  }

  lemma {:induction false} MadeInOrder(env: Env, from: nat, asked: seq<seq<byte>>, i: nat, j: nat)
    requires i < j < |Made(env, from, asked)|
    ensures Made(env, from, asked)[i].buffer < Made(env, from, asked)[j].buffer
    decreases |asked|
  {
    StoredData(env, from, asked[0]);
    hide Stored;
    var first := if env.grant(from) then 1 else 0;
    if i >= first {
      MadeInOrder(env, from + 1, asked[1..], i - first, j - first);
    } else {
      MadeFrom(env, from + 1, asked[1..], j - first);
    }
  }

  lemma {:induction false} MadeFor(env: Env, from: nat, asked: seq<seq<byte>>, k: nat) returns (i: nat)
    requires from <= k < from + |asked| && env.grant(k)
    ensures i < |Made(env, from, asked)| && Made(env, from, asked)[i].buffer == k
    decreases |asked|
  {
    StoredData(env, from, asked[0]);
    hide Stored;
    if k == from {
      i := 0;
    } else {
      i := MadeFor(env, from + 1, asked[1..], k);
      i := i + if env.grant(from) then 1 else 0;
    }
  }

  lemma StoredData(env: Env, k: nat, data: seq<byte>)
    ensures Stored(env, k, data).data == data && Stored(env, k, data).buffer == k
  {
  }

  lemma JoinAssoc<T>(a: seq<T>, b: seq<T>, c: seq<T>)
    ensures (a + b) + c == a + (b + c) && a + [] == a == [] + a
  {
  }

  lemma {:induction false} MadeConcat(env: Env, from: nat, a: seq<seq<byte>>, b: seq<seq<byte>>)
    ensures Made(env, from, a + b) == Made(env, from, a) + Made(env, from + |a|, b)
    decreases |a|
  {
    hide Stored;
    if a == [] {
      assert a + b == b;
    } else {
      MadeConcat(env, from + 1, a[1..], b);
      assert (a + b)[1..] == a[1..] + b;
    }
  }

  lemma {:induction false} MadeLeading(env: Env, from: nat, sent: seq<seq<byte>>)
    ensures |Made(env, from, AskedIn(env.grant, from, sent))| == Leading(env.grant, from, |sent|)
    decreases |sent|
  {
    hide Stored;
    if sent != [] {
      var a := AskedIn(env.grant, from, sent);
      if env.grant(from) {
        MadeLeading(env, from + 1, sent[1..]);
        assert a[1..] == AskedIn(env.grant, from + 1, sent[1..]);
      } else {
        assert a[1..] == [];
      }
    }
  }

  // ----- one target

  /** What one target leaves, in closed form. A result is put past the array exactly when what is held and what
      is asked for are together more than it has room for. */
  lemma {:induction false} InnerClosed(env: Env, s: Progress, items: seq<Item>)
    requires !s.stopped && !s.m.overran && |s.m.results| <= MAX_RESULTS
    ensures var sent, after := TargetResults(items), Inner(env, s, items).m;
            var a := AskedIn(env.grant, s.m.mallocs, sent);
            && (after.overran <==> |s.m.results| + |a| > MAX_RESULTS)
            && (!after.overran ==>
                  after == Measurement(s.m.results + Made(env, s.m.mallocs, a),
                                       if Refused(env.grant, s.m.mallocs, sent) then 1 else s.m.completed,
                                       s.m.mallocs + |a|, false))
    decreases |items|
  {
    hide Stored, AskedIn, Refused, Made, TargetResults;
    if items == [] {
      NothingSent(env, s.m.mallocs);
      assert s.m.results + [] == s.m.results;
    } else {
      var next, rest := InnerStep(env, s, items[0]), TargetResults(items[1..]);
      if items[0].ty != RESULT {
        NoResult(items);
        InnerClosed(env, next, items[1..]);
      } else {
        InnerClosedResult(env, s, items);
        if next.stopped {
          StoppedInner(env, next, items[1..]);
          assert s.m.results + [] == s.m.results;
        } else {
          InnerClosed(env, next, items[1..]);
          var made := Made(env, s.m.mallocs + 1, AskedIn(env.grant, s.m.mallocs + 1, rest));
          assert next.m.results + made == s.m.results + ([Stored(env, s.m.mallocs, items[0].payload)] + made);
        }
      }
    }
  }

  lemma NothingSent(env: Env, from: nat)
    ensures TargetResults([]) == [] && AskedIn(env.grant, from, []) == [] && !Refused(env.grant, from, [])
    ensures Made(env, from, []) == []
  {
  }

  lemma NoResult(items: seq<Item>)
    requires items != [] && items[0].ty != RESULT
    ensures TargetResults(items) == TargetResults(items[1..])
  {
    assert [] + TargetResults(items[1..]) == TargetResults(items[1..]);
  }

  /** The closed form of a target that begins with a result, from that of what is left of it. */
  lemma InnerClosedResult(env: Env, s: Progress, items: seq<Item>)
    requires items != [] && items[0].ty == RESULT
    ensures var rest := TargetResults(items[1..]);
            var sent, from := TargetResults(items), s.m.mallocs;
            && AskedIn(env.grant, from, sent)
               == [items[0].payload] + (if env.grant(from) then AskedIn(env.grant, from + 1, rest) else [])
            && (Refused(env.grant, from, sent) <==> !env.grant(from) || Refused(env.grant, from + 1, rest))
            && Made(env, from, AskedIn(env.grant, from, sent))
               == if env.grant(from)
                  then [Stored(env, from, items[0].payload)] + Made(env, from + 1, AskedIn(env.grant, from + 1, rest))
                  else []
  {
    hide Stored;
    var rest := TargetResults(items[1..]);
    var sent, from := TargetResults(items), s.m.mallocs;
    var a := AskedIn(env.grant, from, sent);
    assert sent == [items[0].payload] + rest && sent[1..] == rest;
    if env.grant(from) {
      assert a[1..] == AskedIn(env.grant, from + 1, rest);
    } else {
      assert a == [items[0].payload] && a[1..] == [];
    }
  }

  // ----- one event

  /** What attribute i of the event finds. */
  function Before(env: Env, m: Measurement, items: seq<Item>, i: nat): Measurement
    requires i <= |items|
  {
    Outer(env, m, items[..i])
  }

  lemma {:induction false} OuterSplit(env: Env, m: Measurement, items: seq<Item>, i: nat)
    requires i <= |items|
    ensures Outer(env, m, items) == Outer(env, Before(env, m, items, i), items[i..])
    decreases i
  {
    hide OuterStep;
    if i == 0 {
      assert items[..0] == [] && items[0..] == items;
    } else {
      OuterSplit(env, OuterStep(env, m, items[0]), items[1..], i - 1);
      assert items[..i][1..] == items[1..][..i - 1] && items[1..][i - 1..] == items[i..];
    }
  }

  lemma BeforeNext(env: Env, m: Measurement, items: seq<Item>, i: nat)
    requires i < |items|
    ensures Before(env, m, items, 0) == m && Before(env, m, items, |items|) == Outer(env, m, items)
    ensures Before(env, m, items, i + 1) == OuterStep(env, Before(env, m, items, i), items[i])
  {
    hide OuterStep;
    var part := items[..i + 1];
    OuterSplit(env, m, part, i);
    assert part[..i] == items[..i] && part[i..] == [items[i]] && [items[i]][1..] == [];
    assert items[..|items|] == items && items[..0] == [];
  }

  /** An attribute puts a result past the array: more is held and asked for than there is room. */
  ghost predicate Bursts(env: Env, m: Measurement, item: Item) {
    !m.overran && |m.results| + |AskedIn(env.grant, m.mallocs, ResultsOf(item))| > 1024
  }

  lemma StepClosed(env: Env, m: Measurement, item: Item)
    requires !m.overran && |m.results| <= MAX_RESULTS
    ensures var sent, after := ResultsOf(item), OuterStep(env, m, item);
            var a := AskedIn(env.grant, m.mallocs, sent);
            && (after.overran <==> Bursts(env, m, item))
            && (!after.overran ==>
                  && |after.results| <= MAX_RESULTS
                  && after.results == m.results + Made(env, m.mallocs, a)
                  && after.mallocs == m.mallocs + |a|
                  && after.completed == if item.ty == RESULTS_COMPLETE then env.get.Get32(item.payload)
                                        else if Refused(env.grant, m.mallocs, sent) then 1 else m.completed)
  {
    hide Stored, Inner, TargetResults, Getters.Get32;
    if item.ty == RESULTS_PER_TARGET {
      InnerClosed(env, Progress(m, false), Walk(item.payload, 0));
    } else {
      assert AskedIn(env.grant, m.mallocs, []) == [] && Made(env, m.mallocs, []) == [];
      assert m.results + [] == m.results;
    }
  }

  /** Up to any attribute, unless something was put past the array, what is held fits it. */
  lemma {:induction false} HeldFits(env: Env, m: Measurement, items: seq<Item>, n: nat)
    requires n <= |items| && !m.overran && |m.results| <= MAX_RESULTS
    ensures !Before(env, m, items, n).overran ==> |Before(env, m, items, n).results| <= MAX_RESULTS
    ensures Before(env, m, items, n).overran
            <==> exists i :: 0 <= i < n && Bursts(env, Before(env, m, items, i), items[i])
  {
    hide Outer, OuterStep, Bursts;
    if n == 0 {
      NothingBefore(env, m, items);
    } else {
      HeldFits(env, m, items, n - 1);
      BeforeNext(env, m, items, n - 1);
      var b := Before(env, m, items, n - 1);
      if b.overran {
        OverranStep(env, b, items[n - 1]);
      } else {
        StepClosed(env, b, items[n - 1]);
      }
    }
  }

  lemma NothingBefore(env: Env, m: Measurement, items: seq<Item>)
    ensures Before(env, m, items, 0) == m
  {
    assert items[..0] == [];
  }

  lemma OverranStep(env: Env, m: Measurement, item: Item)
    requires m.overran
    ensures OuterStep(env, m, item) == m && !Bursts(env, m, item)
  {
  }

  /** A result is put past the array if and only if, at some attribute of the event, the results held by then
      and those asked for are together more than 1024. */
  lemma OverrunExactly(env: Env, m: Measurement, items: seq<Item>)
    requires !m.overran && |m.results| <= MAX_RESULTS
    ensures Outer(env, m, items).overran
            <==> exists i :: 0 <= i < |items| && Bursts(env, Before(env, m, items, i), items[i])
  {
    hide Outer, Bursts;
    HeldFits(env, m, items, |items|);
    assert items[..|items|] == items;
  }

  /** Whatever allocations fail: as long as no more results are held and sent than there is room for, nothing
      is put past the array. */
  lemma {:induction false} EnoughRoom(env: Env, m: Measurement, items: seq<Item>)
    requires !m.overran && |m.results| + |SentBy(items)| <= MAX_RESULTS
    ensures !Outer(env, m, items).overran && |Outer(env, m, items).results| <= |m.results| + |SentBy(items)| <= 1024
    decreases |items|
  {
    hide OuterStep, Made, ResultsOf;
    if items != [] {
      StepClosed(env, m, items[0]);
      EnoughRoom(env, OuterStep(env, m, items[0]), items[1..]);
    }
  }

  /** What an event adds to what is held: what the allocations it asks for make. */
  lemma {:induction false} EventAdds(env: Env, m: Measurement, items: seq<Item>)
    requires !m.overran && |m.results| <= MAX_RESULTS && !Outer(env, m, items).overran
    ensures var asked, after := Asked(env.grant, m.mallocs, items), Outer(env, m, items);
            && after.results == m.results + Made(env, m.mallocs, asked)
            && after.mallocs == m.mallocs + |asked|
            && |after.results| <= MAX_RESULTS
    decreases |items|
  {
    hide OuterStep, Made, AskedIn, ResultsOf;
    if items == [] {
      NoneMade(env, m.mallocs);
      JoinAssoc(m.results, [], []);
    } else {
      var next, a := OuterStep(env, m, items[0]), AskedIn(env.grant, m.mallocs, ResultsOf(items[0]));
      OuterUnrolled(env, m, items);
      AskedUnrolled(env, m, items);
      hide Outer, Asked;
      if next.overran {
        OverranOuter(env, next, items[1..]);
      }
      StepClosed(env, m, items[0]);
      EventAdds(env, next, items[1..]);
      var others := Asked(env.grant, next.mallocs, items[1..]);
      MadeConcat(env, m.mallocs, a, others);
      JoinAssoc(m.results, Made(env, m.mallocs, a), Made(env, next.mallocs, others));
    }
  }

  lemma OuterUnrolled(env: Env, m: Measurement, items: seq<Item>)
    requires items != []
    ensures Outer(env, m, items) == Outer(env, OuterStep(env, m, items[0]), items[1..])
  {
    hide OuterStep;
  }

  lemma AskedUnrolled(env: Env, m: Measurement, items: seq<Item>)
    requires items != []
    ensures var a := AskedIn(env.grant, m.mallocs, ResultsOf(items[0]));
            Asked(env.grant, m.mallocs, items) == a + Asked(env.grant, m.mallocs + |a|, items[1..])
  {
    hide AskedIn, ResultsOf, Refused, Leading;
  }

  lemma NoneMade(env: Env, from: nat)
    ensures Made(env, from, []) == []
  {
  }

  // ----- what completes a measurement

  /** Attribute i says whether the measurement is complete: it is the flag, or an allocation fails in it. */
  ghost predicate Decides(env: Env, m: Measurement, items: seq<Item>, i: nat)
    requires i < |items|
  {
    items[i].ty == 30 || Fails(env, m, items, i)
  }

  ghost predicate Fails(env: Env, m: Measurement, items: seq<Item>, i: nat)
    requires i < |items|
  {
    Refused(env.grant, Before(env, m, items, i).mallocs, ResultsOf(items[i]))
  }

  /** Of the first n attributes, i is the last to decide. */
  ghost predicate LastToDecide(env: Env, m: Measurement, items: seq<Item>, n: nat, i: nat)
    requires n <= |items|
  {
    i < n && Decides(env, m, items, i) && forall j :: i < j < n ==> !Decides(env, m, items, j)
  }

  /** A failure completes it, and so does any flag but zero. */
  predicate SaysComplete(env: Env, item: Item) {
    item.ty == 30 ==> env.get.Get32(item.payload) != 0
  }

  lemma {:induction false} CompletedAfter(env: Env, m: Measurement, items: seq<Item>, n: nat)
    requires n <= |items| && !m.overran && |m.results| <= MAX_RESULTS && !Before(env, m, items, n).overran
    ensures forall i :: 0 <= i < n && LastToDecide(env, m, items, n, i) ==>
              (Before(env, m, items, n).completed != 0 <==> SaysComplete(env, items[i]))
    ensures (forall i :: 0 <= i < n ==> !Decides(env, m, items, i)) ==>
              Before(env, m, items, n).completed == m.completed
  {
    hide Outer, OuterStep, Refused, Made, Getters.Get32, Before, Decides, SaysComplete;
    if n == 0 {
      NothingBefore(env, m, items);
    } else {
      StepInside(env, m, items, n - 1);
      CompletedAfter(env, m, items, n - 1);
      DecidedByStep(env, m, items, n - 1);
      forall i | 0 <= i < n && LastToDecide(env, m, items, n, i)
        ensures Before(env, m, items, n).completed != 0 <==> SaysComplete(env, items[i])
      {
        if i < n - 1 {
          assert !Decides(env, m, items, n - 1) && LastToDecide(env, m, items, n - 1, i);
        }
      }
    }
  }

  /** An attribute that puts nothing past the array was reached without anything past it. */
  lemma StepInside(env: Env, m: Measurement, items: seq<Item>, i: nat)
    requires i < |items| && !m.overran && |m.results| <= MAX_RESULTS && !Before(env, m, items, i + 1).overran
    ensures var b := Before(env, m, items, i); !b.overran && |b.results| <= MAX_RESULTS
    ensures Before(env, m, items, i + 1) == OuterStep(env, Before(env, m, items, i), items[i])
  {
    hide Outer, OuterStep, Before;
    BeforeNext(env, m, items, i);
    if Before(env, m, items, i).overran {
      OverranStep(env, Before(env, m, items, i), items[i]);
    }
    HeldFits(env, m, items, i);
  }

  lemma DecidedByStep(env: Env, m: Measurement, items: seq<Item>, i: nat)
    requires i < |items| && !m.overran && |m.results| <= MAX_RESULTS && !Before(env, m, items, i + 1).overran
    ensures var b, after := Before(env, m, items, i), Before(env, m, items, i + 1);
            if Decides(env, m, items, i) then after.completed != 0 <==> SaysComplete(env, items[i])
            else after.completed == b.completed
  {
    hide Outer, OuterStep, Refused, Made, Getters.Get32, Before;
    StepInside(env, m, items, i);
    StepClosed(env, Before(env, m, items, i), items[i]);
  }

  /** As many allocations have failed as were asked for without adding a result. */
  lemma {:induction false} FailuresCounted(env: Env, m: Measurement, items: seq<Item>, n: nat)
    requires n <= |items| && !m.overran && |m.results| <= MAX_RESULTS && !Before(env, m, items, n).overran
    ensures |Before(env, m, items, n).results| - |m.results| <= Before(env, m, items, n).mallocs - m.mallocs
    ensures (exists i :: 0 <= i < n && Fails(env, m, items, i))
            <==> |Before(env, m, items, n).results| - |m.results| < Before(env, m, items, n).mallocs - m.mallocs
  {
    hide Outer, OuterStep, Refused, Made, Before;
    if n == 0 {
      NothingBefore(env, m, items);
    } else {
      var b := Before(env, m, items, n - 1);
      StepInside(env, m, items, n - 1);
      FailuresCounted(env, m, items, n - 1);
      StepClosed(env, b, items[n - 1]);
      RefusedCounts(env, b.mallocs, ResultsOf(items[n - 1]));
      assert Fails(env, m, items, n - 1) <==> Refused(env.grant, b.mallocs, ResultsOf(items[n - 1]));
      var after := Before(env, m, items, n);
      assert Fails(env, m, items, n - 1) <==> |after.results| - |b.results| < after.mallocs - b.mallocs;
    }
  }

  lemma RefusedCounts(env: Env, from: nat, sent: seq<seq<byte>>)
    ensures Refused(env.grant, from, sent)
            <==> |Made(env, from, AskedIn(env.grant, from, sent))| < |AskedIn(env.grant, from, sent)|
    ensures sent == [] ==> !Refused(env.grant, from, sent)
  {
    MadeLeading(env, from, sent);
  }

  /** An event leaves the measurement complete if and only if the last attribute that is a flag or in which an
      allocation fails is a failure or a flag other than zero; without such an attribute nothing changes. */
  lemma CompletedByTheLast(env: Env, m: Measurement, items: seq<Item>)
    requires !m.overran && |m.results| <= MAX_RESULTS && !Outer(env, m, items).overran
    ensures forall i :: 0 <= i < |items| && LastToDecide(env, m, items, |items|, i) ==>
              (Outer(env, m, items).completed != 0 <==> SaysComplete(env, items[i]))
    ensures (forall i :: 0 <= i < |items| ==> !Decides(env, m, items, i)) ==>
              Outer(env, m, items).completed == m.completed
  {
    hide Outer, SaysComplete;
    assert items[..|items|] == items;
    CompletedAfter(env, m, items, |items|);
  }

  /** There is such a last attribute as soon as there is any. */
  lemma {:induction false} SomeLast(env: Env, m: Measurement, items: seq<Item>, n: nat, i: nat) returns (last: nat)
    requires i < n <= |items| && Decides(env, m, items, i)
    ensures i <= last < n && LastToDecide(env, m, items, n, last)
    decreases n
  {
    hide Decides;
    if Decides(env, m, items, n - 1) {
      last := n - 1;
    } else {
      last := SomeLast(env, m, items, n - 1, i);
    }
  }

  /** An event without a completed flag completes the measurement if and only if it was complete before or an
      allocation failed. */
  lemma FailureCompletes(env: Env, m: Measurement, items: seq<Item>)
    requires !m.overran && |m.results| <= MAX_RESULTS && !Outer(env, m, items).overran
    requires forall i :: i in items ==> i.ty != RESULTS_COMPLETE
    ensures var after := Outer(env, m, items);
            && (after.completed != 0 <==> m.completed != 0 || exists i :: 0 <= i < |items| && Fails(env, m, items, i))
            && (after.completed != 0
                <==> m.completed != 0 || |after.results| - |m.results| < after.mallocs - m.mallocs)
  {
    hide Outer, Fails;
    assert items[..|items|] == items;
    CompletedAfter(env, m, items, |items|);
    FailuresCounted(env, m, items, |items|);
    if i :| 0 <= i < |items| && Fails(env, m, items, i) {
      var last := SomeLast(env, m, items, |items|, i);
      assert SaysComplete(env, items[last]);
    }
  }

  /** A failed allocation is forgotten if and only if a completed flag of zero comes after it and after every
      later failure in the event, with no other flag behind. */
  lemma FailureForgotten(env: Env, m: Measurement, items: seq<Item>, i: nat)
    requires !m.overran && |m.results| <= MAX_RESULTS && !Outer(env, m, items).overran
    requires i < |items| && Fails(env, m, items, i)
    ensures Outer(env, m, items).completed == 0
            <==> exists j :: i < j < |items| && LastToDecide(env, m, items, |items|, j)
                   && items[j].ty == RESULTS_COMPLETE && env.get.Get32(items[j].payload) == 0
  {
    hide Outer, Getters.Get32, Refused;
    CompletedByTheLast(env, m, items);
    var last := SomeLast(env, m, items, |items|, i);
    assert items[i].ty == RESULTS_COMPLETE ==> ResultsOf(items[i]) == [];
    RefusedCounts(env, Before(env, m, items, i).mallocs, ResultsOf(items[i]));
    if Outer(env, m, items).completed == 0 {
      assert !SaysComplete(env, items[last]);
      assert last != i;
    }
  }

  /** That does happen: a target whose one result finds no memory, then a flag of zero; nothing is reported,
      although the result is lost. */
  lemma FailureCanBeForgotten(env: Env, m: Measurement, target: Item, flag: Item, result: seq<byte>)
    requires m.completed == 0 && !m.overran && |m.results| < MAX_RESULTS && !env.grant(m.mallocs)
    requires target.ty == RESULTS_PER_TARGET && Walk(target.payload, 0) == [Item(0, RESULT, result)]
    requires flag.ty == RESULTS_COMPLETE && env.get.Get32(flag.payload) == 0
    ensures Outer(env, m, [target, flag]) == m.(mallocs := m.mallocs + 1)
    ensures Fails(env, m, [target, flag], 0) && LastToDecide(env, m, [target, flag], 2, 1)
  {
    hide Getters.Get32;
    var one := [Item(0, RESULT, result)];
    assert one[1..] == [] && TargetResults(one) == [result];
    var failed := m.(completed := 1, mallocs := m.mallocs + 1);
    assert Inner(env, Progress(m, false), one).m == failed by {
      StoppedInner(env, Progress(failed, true), one[1..]);
    }
    assert [target, flag][1..] == [flag] && [flag][1..] == [] && [target, flag][..0] == [];
    assert Outer(env, failed, [flag]) == Outer(env, failed.(completed := 0), []);
  }

  // ----- over any number of events

  /** What is held after some events, and what they reported, one list for each completion. */
  datatype Outcome = Outcome(m: Measurement, reports: seq<seq<Result>>)

  function Handled(env: Env, m: Measurement, events: seq<seq<byte>>): Outcome
    decreases |events|
  {
    if events == [] then Outcome(m, [])
    else
      var after := Collected(env, m, events[0]);
      var rest := Handled(env, Settled(after), events[1..]);
      if after.completed != 0 then rest.(reports := [after.results] + rest.reports) else rest
  }

  function Flatten<T>(s: seq<seq<T>>): seq<T> {
    if s == [] then [] else s[0] + Flatten(s[1..])
  }

  /** Everything an allocation is asked for, over all events. */
  function AskedOver(grant: nat -> bool, from: nat, events: seq<seq<byte>>): seq<seq<byte>>
    decreases |events|
  {
    if events == [] then []
    else
      var a := Asked(grant, from, Walk(events[0], 0));
      a + AskedOver(grant, from + |a|, events[1..])
  }

  function Sent(events: seq<seq<byte>>): seq<seq<byte>> {
    if events == [] then [] else SentBy(Walk(events[0], 0)) + Sent(events[1..])
  }

  lemma {:induction false} OverranHandled(env: Env, m: Measurement, events: seq<seq<byte>>)
    requires m.overran
    ensures Handled(env, m, events).m.overran
    decreases |events|
  {
    hide Outer;
    if events != [] {
      OverranOuter(env, m, Walk(events[0], 0));
      OverranHandled(env, Settled(Collected(env, m, events[0])), events[1..]);
    }
  }

  lemma FlattenCons<T>(x: seq<T>, rest: seq<seq<T>>)
    ensures Flatten([x] + rest) == x + Flatten(rest)
  {
    assert ([x] + rest)[1..] == rest;
  }

  /** Reports and held results of the first event and of the others, put together. */
  lemma HandledJoins(env: Env, m: Measurement, events: seq<seq<byte>>)
    requires events != []
    ensures var after := Collected(env, m, events[0]);
            var o, rest := Handled(env, m, events), Handled(env, Settled(after), events[1..]);
            && o.m == rest.m
            && Flatten(o.reports) + o.m.results
               == (if after.completed != 0 then after.results else []) + (Flatten(rest.reports) + rest.m.results)
  {
    var after := Collected(env, m, events[0]);
    var rest := Handled(env, Settled(after), events[1..]);
    HandledStep(env, m, events);
    hide Handled, Collected, Settled, Flatten;
    FlattenCons(after.results, rest.reports);
    JoinAssoc(after.results, Flatten(rest.reports), rest.m.results);
    JoinAssoc([], Flatten(rest.reports), rest.m.results);
  }

  lemma HandledStep(env: Env, m: Measurement, events: seq<seq<byte>>)
    requires events != []
    ensures var after := Collected(env, m, events[0]);
            var rest := Handled(env, Settled(after), events[1..]);
            Handled(env, m, events)
            == Outcome(rest.m, if after.completed != 0 then [after.results] + rest.reports else rest.reports)
  {
    hide Collected, Settled;
  }

  /** Over any events and any allocation failures, as long as nothing is put past the array: the results in the
      reports, followed by those still held, are those held at first and then exactly one for each allocation
      that succeeded, in order, made from what it was asked for. So no buffer is lost and none is reported
      twice. */
  lemma {:induction false} EveryBufferReportedOnce(env: Env, m: Measurement, events: seq<seq<byte>>)
    requires !m.overran && |m.results| <= MAX_RESULTS && !Handled(env, m, events).m.overran
    ensures var o, asked := Handled(env, m, events), AskedOver(env.grant, m.mallocs, events);
            && Flatten(o.reports) + o.m.results == m.results + Made(env, m.mallocs, asked)
            && o.m.mallocs == m.mallocs + |asked|
    decreases |events|
  {
    hide Outer, Asked, Made;
    if events == [] {
      NoneMade(env, m.mallocs);
    } else {
      var after, rest := Collected(env, m, events[0]), events[1..];
      if after.overran {
        OverranHandled(env, Settled(after), rest);
      }
      EventAdds(env, m, Walk(events[0], 0));
      EveryBufferReportedOnce(env, Settled(after), rest);
      HandledJoins(env, m, events);
      MadeConcat(env, m.mallocs, Asked(env.grant, m.mallocs, Walk(events[0], 0)),
                 AskedOver(env.grant, after.mallocs, rest));
    }
  }

  // ----- room for what is sent

  /** Each event finds room for what it holds beside what is held by then. */
  ghost predicate EachEventFits(env: Env, m: Measurement, events: seq<seq<byte>>)
    decreases |events|
  {
    events == []
    || (|m.results| + |SentBy(Walk(events[0], 0))| <= MAX_RESULTS
        && EachEventFits(env, Settled(Collected(env, m, events[0])), events[1..]))
  }

  /** Whatever allocations fail, nothing is put past the array as long as each event finds room; a measurement
      that completes gives its room back. */
  lemma {:induction false} RoomForEachEvent(env: Env, m: Measurement, events: seq<seq<byte>>)
    requires !m.overran && EachEventFits(env, m, events)
    ensures !Handled(env, m, events).m.overran
    decreases |events|
  {
    hide Outer, SentBy;
    if events != [] {
      EnoughRoom(env, m, Walk(events[0], 0));
      RoomForEachEvent(env, Settled(Collected(env, m, events[0])), events[1..]);
    }
  }

  ghost predicate AllGranted(env: Env) {
    forall k :: env.grant(k)
  }

  function Data(results: seq<Result>): (d: seq<seq<byte>>)
    ensures |d| == |results|
  {
    seq(|results|, i requires 0 <= i < |results| => results[i].data)
  }

  lemma DataConcat(a: seq<Result>, b: seq<Result>)
    ensures Data(a + b) == Data(a) + Data(b)
  {
  }

  /** With memory for all, everything sent is asked for and made. */
  lemma {:induction false} AllAsked(env: Env, from: nat, items: seq<Item>)
    requires AllGranted(env)
    ensures Asked(env.grant, from, items) == SentBy(items)
    decreases |items|
  {
    hide ResultsOf;
    if items != [] {
      var sent := ResultsOf(items[0]);
      assert AskedIn(env.grant, from, sent) == sent;
      AllAsked(env, from + |sent|, items[1..]);
    }
  }

  lemma {:induction false} AllAskedOver(env: Env, from: nat, events: seq<seq<byte>>)
    requires AllGranted(env)
    ensures AskedOver(env.grant, from, events) == Sent(events)
    decreases |events|
  {
    hide Asked, SentBy;
    if events != [] {
      AllAsked(env, from, Walk(events[0], 0));
      AllAskedOver(env, from + |SentBy(Walk(events[0], 0))|, events[1..]);
    }
  }

  lemma {:induction false} AllMade(env: Env, from: nat, asked: seq<seq<byte>>)
    requires AllGranted(env)
    ensures Data(Made(env, from, asked)) == asked
    decreases |asked|
  {
    if asked != [] {
      StoredData(env, from, asked[0]);
      hide Stored;
      AllMade(env, from + 1, asked[1..]);
      DataConcat([Stored(env, from, asked[0])], Made(env, from + 1, asked[1..]));
    }
  }

  /** With memory for all, a result is put past the array if and only if more are held and sent than there is
      room for. */
  lemma {:induction false} OuterTakesAll(env: Env, m: Measurement, items: seq<Item>)
    requires AllGranted(env) && !m.overran && |m.results| <= MAX_RESULTS
    ensures var after := Outer(env, m, items);
            && (after.overran <==> |m.results| + |SentBy(items)| > MAX_RESULTS)
            && (!after.overran ==> Data(after.results) == Data(m.results) + SentBy(items))
  {
    hide Made, Asked, Data;
    if |m.results| + |SentBy(items)| <= MAX_RESULTS {
      EnoughRoom(env, m, items);
    }
    if !Outer(env, m, items).overran {
      EventAdds(env, m, items);
      AllAsked(env, m.mallocs, items);
      AllMade(env, m.mallocs, SentBy(items));
      DataConcat(m.results, Made(env, m.mallocs, SentBy(items)));
    }
  }

  /** With memory for all: nothing is put past the array if and only if each event finds room, and then what the
      reports carry, followed by what is still held, is exactly what the driver sent, in order. */
  lemma {:induction false} ReportsWhatWasSent(env: Env, m: Measurement, events: seq<seq<byte>>)
    requires AllGranted(env) && !m.overran && |m.results| <= MAX_RESULTS
    ensures var o := Handled(env, m, events);
            && (!o.m.overran <==> EachEventFits(env, m, events))
            && (!o.m.overran ==> Data(Flatten(o.reports) + o.m.results) == Data(m.results) + Sent(events))
    decreases |events|
  {
    hide Outer, SentBy, Made, Data;
    FitsExactly(env, m, events);
    if !Handled(env, m, events).m.overran {
      var asked := AskedOver(env.grant, m.mallocs, events);
      EveryBufferReportedOnce(env, m, events);
      AllAskedOver(env, m.mallocs, events);
      AllMade(env, m.mallocs, asked);
      DataConcat(m.results, Made(env, m.mallocs, asked));
    }
  }

  lemma {:induction false} FitsExactly(env: Env, m: Measurement, events: seq<seq<byte>>)
    requires AllGranted(env) && !m.overran && |m.results| <= MAX_RESULTS
    ensures !Handled(env, m, events).m.overran <==> EachEventFits(env, m, events)
    decreases |events|
  {
    hide Outer, SentBy, Data;
    if events != [] {
      var after := Collected(env, m, events[0]);
      OuterTakesAll(env, m, Walk(events[0], 0));
      if after.overran {
        OverranHandled(env, Settled(after), events[1..]);
      } else {
        EventAdds(env, m, Walk(events[0], 0));
        FitsExactly(env, Settled(after), events[1..]);
      }
    }
  }

  // ----- events as a driver builds them

  /** One target as the driver has it. */
  datatype DriverTarget = DriverTarget(mac: seq<byte>, results: seq<seq<byte>>)

  function ResultAttrs(results: seq<seq<byte>>): (a: seq<Attr>)
    ensures |a| == |results|
  {
    seq(|results|, i requires 0 <= i < |results| => Leaf(33, results[i]))
  }

  function TargetTree(t: DriverTarget): Attr {
    Nest(31, [Leaf(12, t.mac), Leaf(32, Le32(Unsigned(|t.results|)))] + ResultAttrs(t.results))
  }

  /** The targets, then the completed flag. */
  function EventTree(targets: seq<DriverTarget>, flag: u32): (a: seq<Attr>)
    ensures |a| == |targets| + 1
  {
    seq(|targets|, i requires 0 <= i < |targets| => TargetTree(targets[i])) + [Leaf(30, Le32(flag))]
  }

  function AllResults(targets: seq<DriverTarget>): seq<seq<byte>> {
    if targets == [] then [] else targets[0].results + AllResults(targets[1..])
  }

  lemma {:induction false} ResultsShown(items: seq<Item>, results: seq<seq<byte>>)
    requires Shows(items, ResultAttrs(results))
    ensures TargetResults(items) == results
    decreases |results|
  {
    if results != [] {
      var attrs := ResultAttrs(results);
      assert attrs[0] == Leaf(33, results[0]) && attrs[1..] == ResultAttrs(results[1..]);
      ShownTail(items, attrs);
      ResultsShown(items[1..], results[1..]);
    }
  }

  lemma ShownTail(items: seq<Item>, attrs: seq<Attr>)
    requires Shows(items, attrs) && attrs != []
    ensures Shows(items[1..], attrs[1..])
  {
    assert forall i :: 0 <= i < |attrs| - 1 ==> items[1..][i] == items[i + 1] && attrs[1..][i] == attrs[i + 1];
  }

  lemma TargetShown(items: seq<Item>, t: DriverTarget)
    requires Shows(items, TargetTree(t).children)
    ensures TargetResults(items) == t.results
  {
    var attrs := TargetTree(t).children;
    assert attrs[0] == Leaf(12, t.mac) && attrs[1..][0] == Leaf(32, Le32(Unsigned(|t.results|)));
    assert attrs[1..][1..] == ResultAttrs(t.results);
    ShownTail(items, attrs);
    ShownTail(items[1..], attrs[1..]);
    ResultsShown(items[1..][1..], t.results);
    assert TargetResults(items) == [] + TargetResults(items[1..]);
    assert TargetResults(items[1..]) == [] + TargetResults(items[1..][1..]);
  }

  lemma {:induction false} EventShown(items: seq<Item>, targets: seq<DriverTarget>, flag: u32)
    requires Shows(items, EventTree(targets, flag))
    ensures SentBy(items) == AllResults(targets)
    ensures |items| == |targets| + 1
    ensures items[|targets|].ty == 30 && items[|targets|].payload == Le32(flag)
    decreases |targets|
  {
    var attrs := EventTree(targets, flag);
    if targets == [] {
      assert attrs[0] == Leaf(30, Le32(flag)) && items[1..] == [];
    } else {
      assert attrs[0] == TargetTree(targets[0]) && attrs[1..] == EventTree(targets[1..], flag);
      TargetShown(Walk(items[0].payload, 0), targets[0]);
      ShownTail(items, attrs);
      EventShown(items[1..], targets[1..], flag);
    }
  }

  /** Round trip through an event, with memory for all and room for what it holds: a flag other than zero reports
      what was held and then every result of every target, byte for byte and in order, and leaves nothing held;
      a flag of zero adds them to what is held. */
  lemma EventRoundTrip(env: Env, m: Measurement, targets: seq<DriverTarget>, flag: u32)
    requires AllGranted(env) && !m.overran && |m.results| + |AllResults(targets)| <= 1024
    requires forall a :: a in EventTree(targets, flag) ==> a.Fits()
    ensures var o, all := Handled(env, m, [EncodeAll(EventTree(targets, flag))]), Data(m.results) + AllResults(targets);
            && !o.m.overran
            && (flag != 0 ==> |o.reports| == 1 && Data(o.reports[0]) == all && o.m.results == [])
            && (flag == 0 ==> o.reports == [] && Data(o.m.results) == all)
  {
    var bytes := EncodeAll(EventTree(targets, flag));
    var items := Walk(bytes, 0);
    WalkShowsTree(EventTree(targets, flag), 0);
    EventShown(items, targets, flag);
    OuterTakesAll(env, m, items);
    FlagRead(env, flag);
    var last := |targets|;
    assert LastToDecide(env, m, items, |items|, last);
    CompletedByTheLast(env, m, items);
    HandledOne(env, m, bytes);
  }

  lemma FlagRead(env: Env, flag: u32)
    ensures env.get.Get32(Le32(flag)) == 0 <==> flag == 0
  {
    U32OfLe32(flag);
  }

  lemma HandledOne(env: Env, m: Measurement, event: seq<byte>)
    ensures var after := Collected(env, m, event);
            Handled(env, m, [event])
            == if after.completed != 0 then Outcome(after.(results := []), [after.results]) else Outcome(after, [])
  {
    hide Collected;
    assert [event][1..] == [];
  }
}
