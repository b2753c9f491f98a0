/** start() and cancel() of the commands that listen for vendor events, as far as the handler table goes.
    The outcome of the i-th message built or exchange made is io(i); requestResponse loops while its result
    is positive, so an outcome is zero or a negative error. */
module StartCancel {
  import opened Assoc
  import opened Hal

  type Outcome = x: int | x <= 0

  const WIFI_SUCCESS: Outcome := 0
  const GOOGLE_OUI: int := 0x001A11
  const EVENT_HANDLER: nat := 1

  // WIFI_VENDOR_EVENT
  const SIGNIFICANT_CHANGE_RESULTS: int := 0
  const HOTLIST_RESULTS_FOUND: int := 1
  const SCAN_RESULTS_AVAILABLE: int := 2
  const FULL_SCAN_RESULTS: int := 3
  const RTT_COMPLETE: int := 4
  const COMPLETE_SCAN: int := 5
  const HOTLIST_RESULTS_LOST: int := 6
  const RSSI_MONITOR: int := 7
  const EPNO_EVENT: int := 8
  const ANQPO_HOTSPOT_MATCH: int := 9

  function VendorKey(event: int): Key {
    Key(NL80211_CMD_VENDOR, GOOGLE_OUI, event)
  }

  function HandlerFor(event: int, self: Ptr): Handler {
    Entry(VendorKey(event), Callback(EVENT_HANDLER, self))
  }

  /** The table after command self registered the events in order, each refused if there is no room. */
  function Registered(t: seq<Handler>, capacity: nat, events: seq<int>, self: Ptr): seq<Handler> {
    if events == [] then t
    else
      Append(Registered(t, capacity, events[..|events| - 1], self), capacity, HandlerFor(events[|events| - 1], self))
  }

  function Unregistered(t: seq<Handler>, events: seq<int>): seq<Handler> {
    if events == [] then t
    else RemoveFirst(Unregistered(t, events[..|events| - 1]), VendorKey(events[|events| - 1]))
  }

  ghost predicate Absent(t: seq<Handler>, events: seq<int>) {
    forall e :: e in events ==> !HasKey(t, VendorKey(e))
  }

  ghost predicate Distinct(events: seq<int>) {
    forall i, j :: 0 <= i < j < |events| ==> events[i] != events[j]
  }

  /** The events of one kind of command, in the order of registration and of removal. */
  datatype Events = Events(registered: seq<int>, removed: seq<int>) {
    ghost predicate Valid() {
      Distinct(registered) && Distinct(removed) && forall e :: e in registered <==> e in removed
    }
  }

  /** The same events are registered and removed, each once. */
  type Kind = k: Events | k.Valid() witness Events([], [])

  const SCAN: Kind :=
    Events([SCAN_RESULTS_AVAILABLE, COMPLETE_SCAN, FULL_SCAN_RESULTS],
           [COMPLETE_SCAN, SCAN_RESULTS_AVAILABLE, FULL_SCAN_RESULTS])
  const HOTLIST: Kind :=
    Events([HOTLIST_RESULTS_FOUND, HOTLIST_RESULTS_LOST], [HOTLIST_RESULTS_FOUND, HOTLIST_RESULTS_LOST])

  function One(event: int): Kind {
    Events([event], [event])
  }

  /** What a start did to the table. */
  datatype Effect = Untouched | Listening | TakenBack | OnlyRemoved

  function Left(effect: Effect, before: seq<Handler>, capacity: nat, kind: Kind, self: Ptr): seq<Handler> {
    match effect
    case Untouched => before
    case Listening => Registered(before, capacity, kind.registered, self)
    case TakenBack => Unregistered(Registered(before, capacity, kind.registered, self), kind.removed)
    case OnlyRemoved => Unregistered(before, kind.removed)
  }

  /** The first of the n messages and exchanges that fails; n when none does. */
  function FirstFailure(io: nat -> Outcome, n: nat): (f: nat)
    ensures f <= n
    ensures forall i :: 0 <= i < f ==> io(i) == WIFI_SUCCESS
    ensures f < n ==> io(f) != WIFI_SUCCESS
  {
    if n == 0 then 0
    else
      var f := FirstFailure(io, n - 1);
      if f < n - 1 || io(n - 1) != WIFI_SUCCESS then f else n
  }

  /** The first failure decides the result. */
  function ResultOf(io: nat -> Outcome, n: nat): Outcome {
    var f := FirstFailure(io, n);
    if f < n then io(f) else WIFI_SUCCESS
  }

  /** Whether the arrival of vendor event e, 0x1A11 being the vendor, calls the handler of command self. */
  predicate Hears(t: seq<Handler>, self: Ptr, e: int) {
    Call(Callback(1, self)) in Delivery(t, Event(103, 0x1A11, e))
  }

  ghost predicate HearsExactly(t: seq<Handler>, self: Ptr, events: set<int>) {
    forall e :: Hears(t, self, e) <==> e in events
  }

  ghost predicate NobodyFor(t: seq<Handler>, events: set<int>) {
    forall e :: e in events ==> !HasKey(t, Key(103, 0x1A11, e))
  }

  /** There is room, and neither the events nor the command have a handler yet. */
  ghost predicate Ready(t: seq<Handler>, capacity: nat, events: set<int>, self: Ptr) {
    |t| + |events| <= capacity && NobodyFor(t, events) && forall h :: h in t ==> h.val.arg != self
  }

  /** The command no longer hears the events, and hears every other as before. */
  ghost predicate Silenced(before: seq<Handler>, after: seq<Handler>, self: Ptr, events: set<int>) {
    forall e :: Hears(after, self, e) <==> Hears(before, self, e) && e !in events
  }

  // ----- the commands

  class ScanCommand {
    const info: HalInfo
    const self: Ptr

    constructor (info: HalInfo, self: Ptr)
      ensures this.info == info && this.self == self
    {
      this.info, this.self := info, self;
    }

    method Start(io: nat -> Outcome) returns (result: Outcome)
      requires info.Valid()
      modifies info`num_event_cb, info.event_cb
      ensures info.Valid()
      ensures result == ResultOf(io, 6)
      ensures var f := FirstFailure(io, 6);
              var effect := if f < 5 then Untouched else if f == 5 then TakenBack else Listening;
              info.Handlers() == Left(effect, old(info.Handlers()), info.event_cb.Length, SCAN, self)
      ensures result == 0 && Ready(old(info.Handlers()), info.event_cb.Length, {2, 3, 5}, self) ==>
                HearsExactly(info.Handlers(), self, {2, 3, 5})
      ensures result != 0 && NobodyFor(old(info.Handlers()), {2, 3, 5}) ==> info.Handlers() == old(info.Handlers())
    {
      hide Registered, Unregistered, HearsExactly, Ready, NobodyFor;
      StartedHears(info.Handlers(), info.event_cb.Length, SCAN, self, {2, 3, 5});
      FailedStartKeeps(info.Handlers(), info.event_cb.Length, SCAN, self, {2, 3, 5});
      result := io(0);                     // createSetupRequest
      if result != WIFI_SUCCESS {
        return;
      }
      result := io(1);
      if result != WIFI_SUCCESS {
        return;
      }
      result := io(2);                     // createScanConfigRequest
      if result != WIFI_SUCCESS {
        return;
      }
      result := io(3);
      if result != WIFI_SUCCESS {
        return;
      }
      result := io(4);                     // createStartRequest
      if result != WIFI_SUCCESS {
        return;
      }
      RegisterEvents(info, SCAN.registered, self);
      result := io(5);
      if result != WIFI_SUCCESS {
        UnregisterEvents(info, SCAN.removed);
      }
    }

    method Cancel(io: nat -> Outcome) returns (result: Outcome)
      requires info.Valid()
      modifies info`num_event_cb, info.event_cb
      ensures info.Valid() && result == WIFI_SUCCESS
      ensures info.Handlers() == Unregistered(old(info.Handlers()), SCAN.removed)
      ensures DistinctKeys(old(info.Handlers())) ==> Silenced(old(info.Handlers()), info.Handlers(), self, {2, 3, 5})
    {
      CancelSilences(info.Handlers(), SCAN.removed, self, {2, 3, 5});
      result := io(0);                     // createStopRequest
      if result == WIFI_SUCCESS {
        result := io(1);
      }
      UnregisterEvents(info, SCAN.removed);
      result := WIFI_SUCCESS;
    }
  }

  /** FullScanResultsCommand and AnqpoConfigureCommand: one event, registered before the request is sent. */
  class RegisterFirstCommand {
    const info: HalInfo
    const self: Ptr
    const event: int

    constructor FullScan(info: HalInfo, self: Ptr)
      ensures this.info == info && this.self == self && event == 3
    {
      this.info, this.self, event := info, self, FULL_SCAN_RESULTS;
    }

    constructor Anqpo(info: HalInfo, self: Ptr)
      ensures this.info == info && this.self == self && event == 9
    {
      this.info, this.self, event := info, self, ANQPO_HOTSPOT_MATCH;
    }

    method Start(io: nat -> Outcome) returns (result: Outcome)
      requires info.Valid()
      modifies info`num_event_cb, info.event_cb
      ensures info.Valid()
      ensures result == ResultOf(io, 2)
      ensures var f := FirstFailure(io, 2);
              var effect := if f == 0 then Untouched else if f == 1 then TakenBack else Listening;
              info.Handlers() == Left(effect, old(info.Handlers()), info.event_cb.Length, One(event), self)
      ensures result == 0 && Ready(old(info.Handlers()), info.event_cb.Length, {event}, self) ==>
                HearsExactly(info.Handlers(), self, {event})
      ensures result != 0 && NobodyFor(old(info.Handlers()), {event}) ==> info.Handlers() == old(info.Handlers())
    {
      StartedHears(info.Handlers(), info.event_cb.Length, One(event), self, {event});
      FailedStartKeeps(info.Handlers(), info.event_cb.Length, One(event), self, {event});
      result := io(0);                     // createRequest
      if result != WIFI_SUCCESS {
        return;
      }
      RegisterEvents(info, [event], self);
      result := io(1);
      if result != WIFI_SUCCESS {
        UnregisterEvents(info, [event]);
      }
    }

    method Cancel(io: nat -> Outcome) returns (result: Outcome)
      requires info.Valid()
      modifies info`num_event_cb, info.event_cb
      ensures info.Valid() && result == WIFI_SUCCESS
      ensures info.Handlers() == Unregistered(old(info.Handlers()), [event])
      ensures DistinctKeys(old(info.Handlers())) ==> Silenced(old(info.Handlers()), info.Handlers(), self, {event})
    {
      CancelSilences(info.Handlers(), One(event).removed, self, {event});
      result := io(0);
      if result == WIFI_SUCCESS {
        result := io(1);
      }
      UnregisterEvents(info, [event]);
      result := WIFI_SUCCESS;
    }
  }

  class BssidHotlistCommand {
    const info: HalInfo
    const self: Ptr

    constructor (info: HalInfo, self: Ptr)
      ensures this.info == info && this.self == self
    {
      this.info, this.self := info, self;
    }

    /** The first failure path removes handlers that were not registered yet. */
    method Start(io: nat -> Outcome) returns (result: Outcome)
      requires info.Valid()
      modifies info`num_event_cb, info.event_cb
      ensures info.Valid()
      ensures result == ResultOf(io, 4)
      ensures var f := FirstFailure(io, 4);
              var effect := if f == 1 then OnlyRemoved else if f < 3 then Untouched
                            else if f == 3 then TakenBack else Listening;
              info.Handlers() == Left(effect, old(info.Handlers()), info.event_cb.Length, HOTLIST, self)
      ensures result == 0 && Ready(old(info.Handlers()), info.event_cb.Length, {1, 6}, self) ==>
                HearsExactly(info.Handlers(), self, {1, 6})
      ensures result != 0 && NobodyFor(old(info.Handlers()), {1, 6}) ==> info.Handlers() == old(info.Handlers())
    {
      StartedHears(info.Handlers(), info.event_cb.Length, HOTLIST, self, {1, 6});
      FailedStartKeeps(info.Handlers(), info.event_cb.Length, HOTLIST, self, {1, 6});
      result := io(0);                     // createSetupRequest
      if result < 0 {
        return;
      }
      result := io(1);
      if result < 0 {
        UnregisterEvents(info, HOTLIST.removed);
        return;
      }
      result := io(2);                     // createFeatureRequest
      if result < 0 {
        return;
      }
      RegisterEvents(info, HOTLIST.registered, self);
      result := io(3);
      if result < 0 {
        UnregisterEvents(info, HOTLIST.removed);
      }
    }

    /** Handlers first, then the messages, either of which may fail. */
    method Cancel(io: nat -> Outcome) returns (result: Outcome)
      requires info.Valid()
      modifies info`num_event_cb, info.event_cb
      ensures info.Valid()
      ensures info.Handlers() == Unregistered(old(info.Handlers()), HOTLIST.removed)
      ensures DistinctKeys(old(info.Handlers())) ==> Silenced(old(info.Handlers()), info.Handlers(), self, {1, 6})
    {
      CancelSilences(info.Handlers(), HOTLIST.removed, self, {1, 6});
      UnregisterEvents(info, HOTLIST.removed);
      result := io(0);                     // createTeardownRequest
      if result < 0 {
        return;
      }
      result := io(1);
    }
  }

  class EpnoCommand {
    const info: HalInfo
    const self: Ptr

    constructor (info: HalInfo, self: Ptr)
      ensures this.info == info && this.self == self
    {
      this.info, this.self := info, self;
    }

    method Start(io: nat -> Outcome) returns (result: Outcome)
      requires info.Valid()
      modifies info`num_event_cb, info.event_cb
      ensures info.Valid()
      ensures result == ResultOf(io, 2)
      ensures var f := FirstFailure(io, 2);
              var effect := if f == 0 then Untouched else if f == 1 then OnlyRemoved else Listening;
              info.Handlers() == Left(effect, old(info.Handlers()), info.event_cb.Length, One(EPNO_EVENT), self)
      ensures result == 0 && Ready(old(info.Handlers()), info.event_cb.Length, {8}, self) ==>
                HearsExactly(info.Handlers(), self, {8})
      ensures result != 0 && NobodyFor(old(info.Handlers()), {8}) ==> info.Handlers() == old(info.Handlers())
    {
      StartedHears(info.Handlers(), info.event_cb.Length, One(EPNO_EVENT), self, {8});
      FailedStartKeeps(info.Handlers(), info.event_cb.Length, One(EPNO_EVENT), self, {8});
      result := io(0);                     // createSetupRequest
      if result < 0 {
        return;
      }
      result := io(1);
      if result < 0 {
        UnregisterEvents(info, [EPNO_EVENT]);
        return;
      }
      RegisterEvents(info, [EPNO_EVENT], self);
    }

    method Cancel(io: nat -> Outcome) returns (result: Outcome)
      requires info.Valid()
      modifies info`num_event_cb, info.event_cb
      ensures info.Valid()
      ensures info.Handlers() == Unregistered(old(info.Handlers()), [EPNO_EVENT])
      ensures DistinctKeys(old(info.Handlers())) ==> Silenced(old(info.Handlers()), info.Handlers(), self, {8})
    {
      CancelSilences(info.Handlers(), One(EPNO_EVENT).removed, self, {8});
      UnregisterEvents(info, [EPNO_EVENT]);
      result := io(0);
      if result < 0 {
        return;
      }
      result := io(1);
    }
  }

  class SignificantWifiChangeCommand {
    const info: HalInfo
    const self: Ptr

    constructor (info: HalInfo, self: Ptr)
      ensures this.info == info && this.self == self
    {
      this.info, this.self := info, self;
    }

    method Start(io: nat -> Outcome) returns (result: Outcome)
      requires info.Valid()
      modifies info`num_event_cb, info.event_cb
      ensures info.Valid()
      ensures result == ResultOf(io, 4)
      ensures var f := FirstFailure(io, 4);
              var effect := if f < 3 then Untouched else if f == 3 then TakenBack else Listening;
              info.Handlers() == Left(effect, old(info.Handlers()), info.event_cb.Length,
                                      One(SIGNIFICANT_CHANGE_RESULTS), self)
      ensures result == 0 && Ready(old(info.Handlers()), info.event_cb.Length, {0}, self) ==>
                HearsExactly(info.Handlers(), self, {0})
      ensures result != 0 && NobodyFor(old(info.Handlers()), {0}) ==> info.Handlers() == old(info.Handlers())
    {
      StartedHears(info.Handlers(), info.event_cb.Length, One(SIGNIFICANT_CHANGE_RESULTS), self, {0});
      FailedStartKeeps(info.Handlers(), info.event_cb.Length, One(SIGNIFICANT_CHANGE_RESULTS), self, {0});
      result := io(0);                     // createSetupRequest
      if result < 0 {
        return;
      }
      result := io(1);
      if result < 0 {
        return;
      }
      result := io(2);                     // createFeatureRequest
      if result < 0 {
        return;
      }
      RegisterEvents(info, [SIGNIFICANT_CHANGE_RESULTS], self);
      result := io(3);
      if result < 0 {
        UnregisterEvents(info, [SIGNIFICANT_CHANGE_RESULTS]);
      }
    }

    method Cancel(io: nat -> Outcome) returns (result: Outcome)
      requires info.Valid()
      modifies info`num_event_cb, info.event_cb
      ensures info.Valid()
      ensures info.Handlers() == Unregistered(old(info.Handlers()), [SIGNIFICANT_CHANGE_RESULTS])
      ensures DistinctKeys(old(info.Handlers())) ==> Silenced(old(info.Handlers()), info.Handlers(), self, {0})
    {
      CancelSilences(info.Handlers(), One(SIGNIFICANT_CHANGE_RESULTS).removed, self, {0});
      UnregisterEvents(info, [SIGNIFICANT_CHANGE_RESULTS]);
      result := io(0);
      if result < 0 {
        return;
      }
      result := io(1);
    }
  }

  /** RttCommand and SetRSSIMonitorCommand: one event, registered after the request has been answered. */
  class RegisterLastCommand {
    const info: HalInfo
    const self: Ptr
    const event: int

    constructor Rtt(info: HalInfo, self: Ptr)
      ensures this.info == info && this.self == self && event == 4
    {
      this.info, this.self, event := info, self, RTT_COMPLETE;
    }

    constructor RssiMonitor(info: HalInfo, self: Ptr)
      ensures this.info == info && this.self == self && event == 7
    {
      this.info, this.self, event := info, self, RSSI_MONITOR;
    }

    method Start(io: nat -> Outcome) returns (result: Outcome)
      requires info.Valid()
      modifies info`num_event_cb, info.event_cb
      ensures info.Valid()
      ensures result == ResultOf(io, 2)
      ensures var f := FirstFailure(io, 2);
              var effect := if f < 2 then Untouched else Listening;
              info.Handlers() == Left(effect, old(info.Handlers()), info.event_cb.Length, One(event), self)
      ensures result == 0 && Ready(old(info.Handlers()), info.event_cb.Length, {event}, self) ==>
                HearsExactly(info.Handlers(), self, {event})
      ensures result != 0 && NobodyFor(old(info.Handlers()), {event}) ==> info.Handlers() == old(info.Handlers())
    {
      StartedHears(info.Handlers(), info.event_cb.Length, One(event), self, {event});
      FailedStartKeeps(info.Handlers(), info.event_cb.Length, One(event), self, {event});
      result := io(0);                     // createSetupRequest, createRequest
      if result != WIFI_SUCCESS {
        return;
      }
      result := io(1);
      if result != WIFI_SUCCESS {
        return;
      }
      RegisterEvents(info, [event], self);
    }

    method Cancel(io: nat -> Outcome) returns (result: Outcome)
      requires info.Valid()
      modifies info`num_event_cb, info.event_cb
      ensures info.Valid() && result == WIFI_SUCCESS
      ensures info.Handlers() == Unregistered(old(info.Handlers()), [event])
      ensures DistinctKeys(old(info.Handlers())) ==> Silenced(old(info.Handlers()), info.Handlers(), self, {event})
    {
      CancelSilences(info.Handlers(), One(event).removed, self, {event});
      result := io(0);                     // createTeardownRequest, createRequest
      if result == WIFI_SUCCESS {
        result := io(1);
      }
      UnregisterEvents(info, [event]);
      result := WIFI_SUCCESS;
    }
  }

  /** registerVendorHandler for each event; a refusal is ignored, as every start ignores it. */
  method RegisterEvents(info: HalInfo, events: seq<int>, self: Ptr)
    requires info.Valid()
    modifies info`num_event_cb, info.event_cb
    ensures info.Valid()
    ensures info.Handlers() == Registered(old(info.Handlers()), info.event_cb.Length, events, self)
  {
    for i := 0 to |events|
      invariant info.Valid()
      invariant info.Handlers() == Registered(old(info.Handlers()), info.event_cb.Length, events[..i], self)
    {
      assert events[..i + 1][..i] == events[..i];
      var _ := info.RegisterVendorHandler(GOOGLE_OUI, events[i], EVENT_HANDLER, self);
    }
    assert events[..|events|] == events;
  }

  method UnregisterEvents(info: HalInfo, events: seq<int>)
    requires info.Valid()
    modifies info`num_event_cb, info.event_cb
    ensures info.Valid()
    ensures info.Handlers() == Unregistered(old(info.Handlers()), events)
  {
    for i := 0 to |events|
      invariant info.Valid()
      invariant info.Handlers() == Unregistered(old(info.Handlers()), events[..i])
    {
      assert events[..i + 1][..i] == events[..i];
      info.UnregisterVendorHandler(GOOGLE_OUI, events[i]);
    }
    assert events[..|events|] == events;
  }

  // ----- what removal does

  function Keys(events: seq<int>): set<Key> {
    set e | e in events :: VendorKey(e)
  }

  /** The entries with other keys, in order. */
  function Without(t: seq<Handler>, keys: set<Key>): seq<Handler> {
    if t == [] then []
    else (if t[0].key in keys then [] else [t[0]]) + Without(t[1..], keys)
  }

  lemma {:induction false} WithoutNothing(t: seq<Handler>, keys: set<Key>)
    requires forall h :: h in t ==> h.key !in keys
    ensures Without(t, keys) == t
  {
    if t != [] {
      WithoutNothing(t[1..], keys);
    }
  }

  lemma {:induction false} WithoutEverything(t: seq<Handler>, keys: set<Key>)
    requires forall h :: h in t ==> h.key in keys
    ensures Without(t, keys) == []
  {
    if t != [] {
      WithoutEverything(t[1..], keys);
    }
  }

  lemma {:induction false} WithoutTwice(t: seq<Handler>, a: set<Key>, b: set<Key>)
    ensures Without(Without(t, a), b) == Without(t, a + b)
  {
    if t != [] {
      WithoutTwice(t[1..], a, b);
      var rest := Without(t[1..], a);
      if t[0].key in a {
        assert Without(t, a) == rest;
      } else {
        assert Without(t, a) == [t[0]] + rest && ([t[0]] + rest)[1..] == rest;
      }
    }
  }

  /** With distinct keys, removing the first entry with a key removes the key. */
  lemma {:induction false} RemoveIsWithout(t: seq<Handler>, k: Key)
    requires DistinctKeys(t)
    ensures RemoveFirst(t, k) == Without(t, {k})
  {
    if t != [] {
      if t[0].key == k {
        assert IndexOf(t, k) == 0;
        WithoutNothing(t[1..], {k});
      } else {
        RemoveIsWithout(t[1..], k);
        assert !HasKey([t[0]], k) && t == [t[0]] + t[1..];
        RemoveFromTail([t[0]], t[1..], k);
      }
    }
  }

  /** When every key is in the table at most once, cancel takes out exactly the entries for its events and
      keeps all others in order, whatever happened to the table since the start. */
  lemma {:induction false} CancelRemovesExactly(t: seq<Handler>, events: seq<int>)
    requires DistinctKeys(t)
    ensures Unregistered(t, events) == Without(t, Keys(events)) && DistinctKeys(Unregistered(t, events))
  {
    if events == [] {
      WithoutNothing(t, Keys(events));
    } else {
      var before, k := events[..|events| - 1], VendorKey(events[|events| - 1]);
      CancelRemovesExactly(t, before);
      RemoveIsWithout(Unregistered(t, before), k);
      RemoveKeepsDistinct(Unregistered(t, before), k);
      WithoutTwice(t, Keys(before), {k});
      assert Keys(before) + {k} == Keys(events) by {
        assert events == before + [events[|events| - 1]];
      }
    }
  }

  // ----- what start and cancel do together

  /** Registration adds at the end, one entry of this command for each event that found room. */
  lemma {:induction false} RegisteredTail(t: seq<Handler>, capacity: nat, events: seq<int>, self: Ptr)
    returns (added: seq<Handler>)
    requires Distinct(events)
    ensures Registered(t, capacity, events, self) == t + added
    ensures forall h :: h in added ==> h.val == Callback(EVENT_HANDLER, self) && h.key in Keys(events)
    ensures DistinctKeys(added)
  {
    added := [];
    if events != [] {
      var n := |events| - 1;
      added := RegisteredTail(t, capacity, events[..n], self);
      var h := HandlerFor(events[n], self);
      if |t + added| < capacity {
        forall i | 0 <= i < |added| ensures added[i].key != h.key {
          assert added[i] in added && added[i].key in Keys(events[..n]);
        }
        assert t + added + [h] == t + (added + [h]);
        added := added + [h];
      }
    }
  }

  lemma {:induction false} UnregisteredBehind(t: seq<Handler>, added: seq<Handler>, events: seq<int>)
    requires Absent(t, events)
    ensures Unregistered(t + added, events) == t + Unregistered(added, events)
  {
    if events != [] {
      var before := events[..|events| - 1];
      UnregisteredBehind(t, added, before);
      RemoveFromTail(t, Unregistered(added, before), VendorKey(events[|events| - 1]));
    }
  }

  /** Start followed by cancel gives back the table as it was, full or not. */
  lemma StartThenCancel(t: seq<Handler>, capacity: nat, kind: Kind, self: Ptr)
    requires Absent(t, kind.registered)
    ensures Unregistered(Registered(t, capacity, kind.registered, self), kind.removed) == t
  {
    var added := RegisteredTail(t, capacity, kind.registered, self);
    UnregisteredBehind(t, added, kind.removed);
    CancelRemovesExactly(added, kind.removed);
    WithoutEverything(added, Keys(kind.removed));
  }

  lemma {:induction false} UnregisterAbsent(t: seq<Handler>, events: seq<int>)
    requires Absent(t, events)
    ensures Unregistered(t, events) == t
  {
    UnregisteredBehind(t, [], events);
    CancelRemovesExactly([], events);
    assert t + [] == t;
  }

  // ----- exactly when

  /** The entries that do not belong to command self. */
  function Others(t: seq<Handler>, self: Ptr): nat {
    if t == [] then 0 else (if t[0].val.arg == self then 0 else 1) + Others(t[1..], self)
  }

  lemma {:induction false} OthersConcat(s: seq<Handler>, t: seq<Handler>, self: Ptr)
    ensures Others(s + t, self) == Others(s, self) + Others(t, self)
  {
    if s == [] {
      assert s + t == t;
    } else {
      OthersConcat(s[1..], t, self);
      assert (s + t)[1..] == s[1..] + t;
    }
  }

  lemma OthersRemoved(t: seq<Handler>, k: Key, self: Ptr)
    ensures Others(RemoveFirst(t, k), self) <= Others(t, self)
    ensures Lookup(t, k).Some? && Lookup(t, k).value.arg != self ==>
              Others(RemoveFirst(t, k), self) == Others(t, self) - 1
  {
    var i := IndexOf(t, k);
    if i < |t| {
      assert t == t[..i] + ([t[i]] + t[i + 1..]);
      OthersConcat(t[..i], [t[i]] + t[i + 1..], self);
      OthersConcat([t[i]], t[i + 1..], self);
      OthersConcat(t[..i], t[i + 1..], self);
      assert Others([t[i]], self) == if t[i].val.arg == self then 0 else 1;
    }
  }

  lemma LookupKept(t: seq<Handler>, k: Key, l: Key)
    requires k != l
    ensures Lookup(RemoveFirst(t, l), k) == Lookup(t, k)
  {
    var i, j := IndexOf(t, l), IndexOf(t, k);
    var r := RemoveFirst(t, l);
    if i < |t| {
      assert |r| == |t| - 1;
      var at := if j < i then j else j - 1;
      forall m | 0 <= m < at ensures r[m].key != k {
        assert r[m] == if m < i then t[m] else t[m + 1];
      }
      assert at < |r| ==> r[at] == t[j];
      IndexOfUnique(r, k, at);
    }
  }

  lemma {:induction false} LookupKeptAll(t: seq<Handler>, k: Key, events: seq<int>)
    requires k !in Keys(events)
    ensures Lookup(Unregistered(t, events), k) == Lookup(t, k)
  {
    if events != [] {
      var before, e := events[..|events| - 1], events[|events| - 1];
      assert VendorKey(e) in Keys(events) && Keys(before) <= Keys(events);
      LookupKeptAll(t, k, before);
      LookupKept(Unregistered(t, before), k, VendorKey(e));
    }
  }

  lemma LastIsNew(events: seq<int>)
    requires Distinct(events) && events != []
    ensures VendorKey(events[|events| - 1]) !in Keys(events[..|events| - 1])
  {
    var before := events[..|events| - 1];
    forall x | x in before ensures x != events[|events| - 1] {
      var i :| 0 <= i < |before| && before[i] == x;
      assert events[i] == x;
    }
  }

  /** Unregistering an event whose first handler is another command's costs that command its handler. */
  lemma {:induction false} OthersLost(t: seq<Handler>, events: seq<int>, e: int, self: Ptr)
    requires e in events && Distinct(events)
    requires Lookup(t, VendorKey(e)).Some? && Lookup(t, VendorKey(e)).value.arg != self
    ensures Others(Unregistered(t, events), self) < Others(t, self)
  {
    var before, last := events[..|events| - 1], events[|events| - 1];
    OthersNeverGrow(t, before, self);
    OthersRemoved(Unregistered(t, before), VendorKey(last), self);
    if last == e {
      LastIsNew(events);
      LookupKeptAll(t, VendorKey(e), before);
    } else {
      assert events == before + [last];
      OthersLost(t, before, e, self);
    }
  }

  lemma {:induction false} OthersNeverGrow(t: seq<Handler>, events: seq<int>, self: Ptr)
    ensures Others(Unregistered(t, events), self) <= Others(t, self)
  {
    if events != [] {
      OthersNeverGrow(t, events[..|events| - 1], self);
      OthersRemoved(Unregistered(t, events[..|events| - 1]), VendorKey(events[|events| - 1]), self);
    }
  }

  /** A command with no handler yet gets the table back as it was, after a start that fails at its last
      step or after start and cancel, if and only if none of its events had a handler before. */
  lemma RestoredIffAbsent(t: seq<Handler>, capacity: nat, kind: Kind, self: Ptr)
    requires forall h :: h in t ==> h.val.arg != self
    ensures Unregistered(Registered(t, capacity, kind.registered, self), kind.removed) == t
            <==> Absent(t, kind.registered)
  {
    if Absent(t, kind.registered) {
      StartThenCancel(t, capacity, kind, self);
    } else {
      var e :| e in kind.registered && HasKey(t, VendorKey(e));
      var added := RegisteredTail(t, capacity, kind.registered, self);
      var k, i := VendorKey(e), IndexOf(t, VendorKey(e));
      IndexOfUnique(t + added, k, i);
      assert t[i] in t;
      OthersLost(t + added, kind.removed, e, self);
      OthersConcat(t, added, self);
      NoOthers(added, self);
    }
  }

  lemma {:induction false} NoOthers(t: seq<Handler>, self: Ptr)
    requires forall h :: h in t ==> h.val.arg == self
    ensures Others(t, self) == 0
  {
    if t != [] {
      NoOthers(t[1..], self);
    }
  }

  // ----- a failed start

  lemma {:induction false} LengthTells(t: seq<Handler>, events: seq<int>)
    ensures |Unregistered(t, events)| <= |t|
    ensures |Unregistered(t, events)| == |t| ==> Unregistered(t, events) == t
  {
    if events != [] {
      LengthTells(t, events[..|events| - 1]);
    }
  }

  /** Removing events leaves the table as it was if and only if it had no handler for any of them. */
  lemma {:induction false} RemovalHarmlessIffAbsent(t: seq<Handler>, events: seq<int>)
    ensures Unregistered(t, events) == t <==> Absent(t, events)
  {
    if Absent(t, events) {
      UnregisterAbsent(t, events);
    } else {
      var before, last := events[..|events| - 1], events[|events| - 1];
      assert events == before + [last];
      LengthTells(t, before);
      RemovalHarmlessIffAbsent(t, before);
      if Unregistered(t, before) == t {
        assert HasKey(t, VendorKey(last)) by {
          var e :| e in events && HasKey(t, VendorKey(e));
        }
        var i :| 0 <= i < |t| && t[i].key == VendorKey(last);
        assert IndexOf(t, VendorKey(last)) <= i;
      }
    }
  }

  /** What a failed start of a command that had no handler leaves: the table as it was if and only if it never
      touched it or no event of its kind had a handler. So RTT and RSSI monitoring never disturb anyone; the
      removal of handlers not yet registered costs another command its handler whenever there is one. */
  lemma FailedStartRestores(effect: Effect, before: seq<Handler>, capacity: nat, kind: Kind, self: Ptr)
    requires !effect.Listening? && forall h :: h in before ==> h.val.arg != self
    ensures Left(effect, before, capacity, kind, self) == before
            <==> effect.Untouched? || Absent(before, kind.registered)
  {
    match effect
    case Untouched =>
    case TakenBack => RestoredIffAbsent(before, capacity, kind, self);
    case OnlyRemoved =>
      RemovalHarmlessIffAbsent(before, kind.removed);
      assert Absent(before, kind.removed) <==> Absent(before, kind.registered);
  }

  /** Whatever handlers the command itself has, a failed start changes nothing when its events had none. */
  lemma FailedStartChangesNothing(effect: Effect, before: seq<Handler>, capacity: nat, kind: Kind, self: Ptr)
    requires !effect.Listening? && (effect.Untouched? || Absent(before, kind.registered))
    ensures Left(effect, before, capacity, kind, self) == before
  {
    match effect
    case Untouched =>
    case TakenBack => StartThenCancel(before, capacity, kind, self);
    case OnlyRemoved => UnregisterAbsent(before, kind.removed);
  }

  // ----- who is called

  ghost predicate SameEvents(listed: seq<int>, events: set<int>) {
    |listed| == |events| && forall e :: e in listed <==> e in events
  }

  /** With room, registration adds a handler for every event. */
  lemma {:induction false} RegisteredAll(t: seq<Handler>, capacity: nat, events: seq<int>, self: Ptr)
    requires |t| + |events| <= capacity
    ensures Registered(t, capacity, events, self)
         == t + seq(|events|, i requires 0 <= i < |events| => HandlerFor(events[i], self))
  {
    if events != [] {
      RegisteredAll(t, capacity, events[..|events| - 1], self);
    }
  }

  /** An event is handed to the command if and only if it is one of those registered. */
  lemma StartedHears(t: seq<Handler>, capacity: nat, kind: Kind, self: Ptr, events: set<int>)
    requires SameEvents(kind.registered, events)
    ensures Ready(t, capacity, events, self) ==>
              HearsExactly(Registered(t, capacity, kind.registered, self), self, events)
  {
    if Ready(t, capacity, events, self) {
      RegisteredAll(t, capacity, kind.registered, self);
      var r := Registered(t, capacity, kind.registered, self);
      forall e ensures Hears(r, self, e) <==> e in events {
        HearsRegistered(t, r, kind.registered, self, e);
      }
    }
  }

  lemma FailedStartKeeps(t: seq<Handler>, capacity: nat, kind: Kind, self: Ptr, events: set<int>)
    requires SameEvents(kind.registered, events)
    ensures forall effect: Effect :: !effect.Listening? && NobodyFor(t, events) ==>
              Left(effect, t, capacity, kind, self) == t
  {
    hide Left;
    forall effect: Effect | !effect.Listening? && NobodyFor(t, events)
      ensures Left(effect, t, capacity, kind, self) == t
    {
      FailedStartChangesNothing(effect, t, capacity, kind, self);
    }
  }

  lemma HearsRegistered(t: seq<Handler>, r: seq<Handler>, listed: seq<int>, self: Ptr, e: int)
    requires r == t + seq(|listed|, i requires 0 <= i < |listed| => HandlerFor(listed[i], self))
    requires e in listed ==> !HasKey(t, VendorKey(e))
    requires forall h :: h in t ==> h.val.arg != self
    ensures Hears(r, self, e) <==> e in listed
  {
    var i := IndexOf(r, VendorKey(e));
    if e in listed {
      var j :| 0 <= j < |listed| && listed[j] == e;
      assert r[|t| + j].key == VendorKey(e);
      assert i >= |t|;
      assert r[i] == HandlerFor(listed[i - |t|], self);
    } else if i < |t| {
      assert r[i] in t;
    }
  }

  /** With distinct keys, cancel leaves the command deaf to its events and to no others. */
  lemma CancelSilences(t: seq<Handler>, removed: seq<int>, self: Ptr, events: set<int>)
    requires SameEvents(removed, events)
    ensures DistinctKeys(t) ==> Silenced(t, Unregistered(t, removed), self, events)
  {
    if DistinctKeys(t) {
      forall e ensures Hears(Unregistered(t, removed), self, e) <==> Hears(t, self, e) && e !in events {
        if e in events {
          CancelRemovesExactly(t, removed);
          assert VendorKey(e) in Keys(removed);
          WithoutHasNone(t, Keys(removed));
        } else {
          LookupKeptAll(t, VendorKey(e), removed);
        }
      }
    }
  }

  lemma {:induction false} WithoutHasNone(t: seq<Handler>, keys: set<Key>)
    ensures forall h :: h in Without(t, keys) ==> h.key !in keys
  {
    if t != [] {
      WithoutHasNone(t[1..], keys);
    }
  }
}
