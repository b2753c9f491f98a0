/** The two tables of hal_info, kept in place in arrays, and the delivery of one event. */
module Hal {
  import opened Assoc

  type Ptr = nat
  const NULL: Ptr := 0

  /** nl80211's vendor command number; the header that fixes it is not part of the repository. */
  const NL80211_CMD_VENDOR: int := 103

  datatype Callback = Callback(func: nat, arg: Ptr)
  type Handler = Entry<Key, Callback>
  type Command = Entry<int, Ptr>

  datatype Status = Success | OutOfMemory

  /** What an incoming message looks like once parsed. */
  datatype Event = Event(cmd: int, vendorId: int, subcmd: int)

  /** What the delivery of an event does, in order. */
  datatype Action = Lock | Unlock | AddRef(p: Ptr) | ReleaseRef(p: Ptr) | Call(callback: Callback)

  /** The key an event is looked up by: vendor attributes are read for vendor events only. */
  function EventKey(ev: Event): Key {
    if ev.cmd == NL80211_CMD_VENDOR then Key(ev.cmd, ev.vendorId, ev.subcmd) else Key(ev.cmd, 0, 0)
  }

  /** Delivery as find-first on the abstract table. */
  function Delivery(handlers: seq<Handler>, ev: Event): seq<Action> {
    match Lookup(handlers, EventKey(ev))
    case None => [Lock, Unlock]
    case Some(cb) =>
      if cb.arg == NULL then [Lock, Unlock, Call(cb)]
      else [Lock, AddRef(cb.arg), Unlock, Call(cb), ReleaseRef(cb.arg)]
  }

  /** Whether the mutex is held after one more action, or None when the action misuses it: it is locked
      twice, unlocked when free, a reference is taken without it, or a callback is run under it. */
  function HeldNext(held: Option<bool>, action: Action): Option<bool> {
    match (held, action)
    case (Some(false), Lock) => Some(true)
    case (Some(true), Unlock) => Some(false)
    case (Some(true), AddRef(_)) => Some(true)
    case (Some(false), ReleaseRef(_)) => Some(false)
    case (Some(false), Call(_)) => Some(false)
    case _ => None
  }

  function Held(actions: seq<Action>): Option<bool> {
    if actions == [] then Some(false)
    else HeldNext(Held(actions[..|actions| - 1]), actions[|actions| - 1])
  }

  class HalInfo {
    const event_cb: array<Handler>
    var num_event_cb: nat
    const cmd: array<Command>
    var num_cmd: nat
    /** Everything done under, to or around cb_lock by event delivery, in order. */
    var trace: seq<Action>

    ghost predicate Valid()
      reads this, event_cb
    {
      && num_event_cb <= event_cb.Length
      && num_cmd <= cmd.Length
      && forall i :: 0 <= i < num_event_cb ==> WellKeyed(event_cb[i].key)
    }

    /** Handlers for plain commands carry no vendor id and no subcommand. */
    static predicate WellKeyed(k: Key) {
      k.nlCmd != NL80211_CMD_VENDOR ==> k.vendorId == 0 && k.subcmd == 0
    }

    ghost function Handlers(): seq<Handler>
      reads this, event_cb
      requires Valid()
    {
      event_cb[..num_event_cb]
    }

    ghost function Commands(): seq<Command>
      reads this, event_cb, cmd
      requires Valid()
    {
      cmd[..num_cmd]
    }

    /** wifi_initialize: two allocations of fixed size whose contents mean nothing yet. */
    constructor (junkHandler: Handler, junkCommand: Command)
      ensures Valid() && Handlers() == [] && Commands() == [] && trace == []
      ensures event_cb.Length == cmd.Length == 64
      ensures fresh(event_cb) && fresh(cmd)
    {
      event_cb := new Handler[DEFAULT_EVENT_CB_SIZE](_ => junkHandler);
      cmd := new Command[DEFAULT_CMD_SIZE](_ => junkCommand);
      num_event_cb, num_cmd, trace := 0, 0, [];
    }

    method Register(key: Key, func: nat, arg: Ptr) returns (result: Status)
      requires Valid() && WellKeyed(key)
      modifies this`num_event_cb, event_cb
      ensures Valid()
      ensures Handlers() == Append(old(Handlers()), event_cb.Length, Entry(key, Callback(func, arg)))
      ensures result == if |old(Handlers())| < event_cb.Length then Success else OutOfMemory
    {
      result := OutOfMemory;
      if num_event_cb < event_cb.Length {
        event_cb[num_event_cb] := Entry(key, Callback(func, arg));
        num_event_cb := num_event_cb + 1;
        result := Success;
      }
    }

    /** wifi_register_handler; nothing stops a caller from passing the vendor command here. */
    method RegisterHandler(nlCmd: int, func: nat, arg: Ptr) returns (result: Status)
      requires Valid()
      modifies this`num_event_cb, event_cb
      ensures Valid()
      ensures Handlers() == Append(old(Handlers()), event_cb.Length, Entry(Key(nlCmd, 0, 0), Callback(func, arg)))
      ensures result == if |old(Handlers())| < event_cb.Length then Success else OutOfMemory
    {
      result := Register(Key(nlCmd, 0, 0), func, arg);
    }

    /** wifi_register_vendor_handler */
    method RegisterVendorHandler(id: int, subcmd: int, func: nat, arg: Ptr) returns (result: Status)
      requires Valid()
      modifies this`num_event_cb, event_cb
      ensures Valid()
      ensures Handlers() == Append(old(Handlers()), event_cb.Length,
                                   Entry(Key(NL80211_CMD_VENDOR, id, subcmd), Callback(func, arg)))
      ensures result == if |old(Handlers())| < event_cb.Length then Success else OutOfMemory
    {
      result := Register(Key(NL80211_CMD_VENDOR, id, subcmd), func, arg);
    }

    /** The memmove and the new count that take out the handler at i. */
    method CloseGap(i: nat)
      requires Valid() && i < num_event_cb
      modifies this`num_event_cb, event_cb
      ensures Valid()
      ensures Handlers() == old(Handlers())[..i] + old(Handlers())[i + 1..]
    {
      MoveDown(event_cb, i, num_event_cb - i - 1);
      num_event_cb := num_event_cb - 1;
    }

    /** wifi_unregister_handler: vendor handlers are refused, the first handler for the command goes. */
    method UnregisterHandler(nlCmd: int)
      requires Valid()
      modifies this`num_event_cb, event_cb
      ensures Valid()
      ensures nlCmd == NL80211_CMD_VENDOR ==> Handlers() == old(Handlers())
      ensures nlCmd != NL80211_CMD_VENDOR ==> Handlers() == RemoveFirst(old(Handlers()), Key(nlCmd, 0, 0))
    {
      if nlCmd == NL80211_CMD_VENDOR {
        return;
      }
      var i := 0;
      while i < num_event_cb
        invariant 0 <= i <= num_event_cb && Valid() && Handlers() == old(Handlers())
        invariant num_event_cb == old(num_event_cb)
        invariant forall j :: 0 <= j < i ==> event_cb[j].key.nlCmd != nlCmd
      {
        if event_cb[i].key.nlCmd == nlCmd {
          IndexOfUnique(Handlers(), Key(nlCmd, 0, 0), i);
          CloseGap(i);
          return;
        }
        i := i + 1;
      }
      IndexOfUnique(Handlers(), Key(nlCmd, 0, 0), i);
    }

    /** wifi_unregister_vendor_handler */
    method UnregisterVendorHandler(id: int, subcmd: int)
      requires Valid()
      modifies this`num_event_cb, event_cb
      ensures Valid()
      ensures Handlers() == RemoveFirst(old(Handlers()), Key(NL80211_CMD_VENDOR, id, subcmd))
    {
      var i := 0;
      while i < num_event_cb
        invariant 0 <= i <= num_event_cb && Valid() && Handlers() == old(Handlers())
        invariant num_event_cb == old(num_event_cb)
        invariant forall j :: 0 <= j < i ==> event_cb[j].key != Key(NL80211_CMD_VENDOR, id, subcmd)
      {
        var k := event_cb[i].key;
        if k.nlCmd == NL80211_CMD_VENDOR && k.vendorId == id && k.subcmd == subcmd {
          IndexOfUnique(Handlers(), k, i);
          CloseGap(i);
          return;
        }
        i := i + 1;
      }
      IndexOfUnique(Handlers(), Key(NL80211_CMD_VENDOR, id, subcmd), i);
    }

    /** wifi_register_cmd */
    method RegisterCmd(id: int, c: Ptr) returns (result: Status)
      requires Valid()
      modifies this`num_cmd, cmd
      ensures Valid()
      ensures Commands() == Append(old(Commands()), cmd.Length, Entry(id, c))
      ensures result == if |old(Commands())| < cmd.Length then Success else OutOfMemory
    {
      result := OutOfMemory;
      if num_cmd < cmd.Length {
        cmd[num_cmd] := Entry(id, c);
        num_cmd := num_cmd + 1;
        result := Success;
      }
    }

    /** wifi_get_cmd */
    method GetCmd(id: int) returns (c: Ptr)
      requires Valid()
      ensures c == match Lookup(Commands(), id) case None => NULL case Some(p) => p
    {
      c := NULL;
      var i := 0;
      while i < num_cmd
        invariant 0 <= i <= num_cmd
        invariant forall j :: 0 <= j < i ==> cmd[j].key != id
      {
        if cmd[i].key == id {
          IndexOfUnique(Commands(), id, i);
          return cmd[i].val;
        }
        i := i + 1;
      }
      IndexOfUnique(Commands(), id, i);
    }

    /** The memmove of the command table: one slot more than needed, which only shows when it is full. */
    method CloseCmdGap(i: nat, beyond: Command) returns (overran: bool)
      requires Valid() && i < num_cmd
      modifies this`num_cmd, cmd
      ensures Valid()
      ensures Commands() == old(Commands())[..i] + old(Commands())[i + 1..]
      ensures overran <==> |old(Commands())| == cmd.Length
    {
      overran := MoveDownOver(cmd, i, num_cmd - i, beyond);
      num_cmd := num_cmd - 1;
    }

    /** wifi_unregister_cmd by request id. The move takes one slot more than the handler table's: it reads
        past the allocation exactly when the table is full, and the live entries never see what it reads. */
    method UnregisterCmd(id: int, beyond: Command) returns (c: Ptr, overran: bool)
      requires Valid()
      modifies this`num_cmd, cmd
      ensures Valid()
      ensures overran <==> HasKey(old(Commands()), id) && |old(Commands())| == cmd.Length
      ensures c == match Lookup(old(Commands()), id) case None => NULL case Some(p) => p
      ensures Commands() == RemoveFirst(old(Commands()), id)
    {
      c, overran := NULL, false;
      var i := 0;
      while i < num_cmd
        invariant 0 <= i <= num_cmd && num_cmd == old(num_cmd) && Valid()
        invariant cmd[..] == old(cmd[..])
        invariant forall j :: 0 <= j < i ==> cmd[j].key != id
      {
        if cmd[i].key == id {
          c := cmd[i].val;
          IndexOfUnique(Commands(), id, i);
          overran := CloseCmdGap(i, beyond);
          return;
        }
        i := i + 1;
      }
      IndexOfUnique(Commands(), id, i);
    }

    /** wifi_unregister_cmd by command: the first entry for c goes. */
    method UnregisterCmdByValue(c: Ptr, beyond: Command) returns (overran: bool)
      requires Valid()
      modifies this`num_cmd, cmd
      ensures Valid()
      ensures overran <==> |RemoveFirstValue(old(Commands()), c)| < |old(Commands())| == cmd.Length
      ensures Commands() == RemoveFirstValue(old(Commands()), c)
    {
      overran := false;
      var i := 0;
      while i < num_cmd
        invariant 0 <= i <= num_cmd && num_cmd == old(num_cmd) && Valid()
        invariant cmd[..] == old(cmd[..])
        invariant forall j :: 0 <= j < i ==> cmd[j].val != c
      {
        if cmd[i].val == c {
          RemoveFirstValueAt(Commands(), c, i);
          overran := CloseCmdGap(i, beyond);
          return;
        }
        i := i + 1;
      }
      RemoveFirstValueAt(Commands(), c, i);
    }

    /** internal_valid_message_handler. The callback sees the mutex free and the command referenced. */
    method HandleValidMessage(parsed: bool, ev: Event)
      requires Valid()
      modifies this`trace
      ensures trace == old(trace) + if parsed then Delivery(Handlers(), ev) else []
    {
      if !parsed {
        return;
      }
      var cmd := ev.cmd;
      var vendorId, subcmd := 0, 0;
      if cmd == NL80211_CMD_VENDOR {
        vendorId, subcmd := ev.vendorId, ev.subcmd;
      }
      trace := trace + [Lock];
      var i := 0;
      while i < num_event_cb
        invariant 0 <= i <= num_event_cb
        invariant trace == old(trace) + [Lock]
        invariant forall j :: 0 <= j < i ==> event_cb[j].key != EventKey(ev)
      {
        var k := event_cb[i].key;
        if cmd == k.nlCmd {
          if !(cmd == NL80211_CMD_VENDOR && (vendorId != k.vendorId || subcmd != k.subcmd)) {
            IndexOfUnique(Handlers(), EventKey(ev), i);
            var cbi := event_cb[i].val;
            if cbi.arg != NULL {
              trace := trace + [AddRef(cbi.arg)];
            }
            trace := trace + [Unlock];
            trace := trace + [Call(cbi)];
            if cbi.arg != NULL {
              trace := trace + [ReleaseRef(cbi.arg)];
            }
            return;
          }
        }
        i := i + 1;
      }
      IndexOfUnique(Handlers(), EventKey(ev), i);
      trace := trace + [Unlock];
    }
  }

  /** memmove of n slots from i + 1 to i, inside the allocation. */
  method MoveDown<T>(a: array<T>, i: nat, n: nat)
    requires i + n < a.Length
    modifies a
    ensures forall j :: 0 <= j < a.Length ==> a[j] == if i <= j < i + n then old(a[j + 1]) else old(a[j])
  {
    var j := 0;
    while j < n
      invariant 0 <= j <= n
      invariant forall m :: 0 <= m < a.Length ==> a[m] == if i <= m < i + j then old(a[m + 1]) else old(a[m])
    {
      a[i + j] := a[i + j + 1];
      j := j + 1;
    }
  }

  /** memmove of n slots from i + 1 to i, where the last slot read may lie one past the allocation: what is
      found there is arbitrary, and only the last slot written can receive it. */
  method MoveDownOver<T>(a: array<T>, i: nat, n: nat, beyond: T) returns (overran: bool)
    requires i + n <= a.Length
    modifies a
    ensures overran <==> n > 0 && i + n == a.Length
    ensures forall j :: 0 <= j < a.Length && j + 1 < i + n ==> a[j] == if i <= j then old(a[j + 1]) else old(a[j])
    ensures forall j :: i + n <= j < a.Length ==> a[j] == old(a[j])
  {
    overran := false;
    var j := 0;
    while j < n
      invariant 0 <= j <= n
      invariant overran <==> j > 0 && i + j == a.Length
      invariant forall m :: 0 <= m < i ==> a[m] == old(a[m])
      invariant forall m :: i <= m < i + j && m + 1 < a.Length ==> a[m] == old(a[m + 1])
      invariant forall m :: i + j <= m < a.Length ==> a[m] == old(a[m])
    {
      if i + j + 1 < a.Length {
        a[i + j] := a[i + j + 1];
      } else {
        a[i + j], overran := beyond, true;
      }
      j := j + 1;
    }
  }

  function RemoveFirstValue<K, V(==)>(s: seq<Entry<K, V>>, v: V): seq<Entry<K, V>> {
    if s == [] then []
    else if s[0].val == v then s[1..]
    else [s[0]] + RemoveFirstValue(s[1..], v)
  }

  /** The first entry with value v is cut out, wherever it is. */
  lemma {:induction false} RemoveFirstValueAt<K, V>(s: seq<Entry<K, V>>, v: V, i: nat)
    requires i <= |s|
    requires forall j :: 0 <= j < i ==> s[j].val != v
    requires i < |s| ==> s[i].val == v
    ensures RemoveFirstValue(s, v) == if i < |s| then s[..i] + s[i + 1..] else s
  {
    if i > 0 {
      RemoveFirstValueAt(s[1..], v, i - 1);
      if i < |s| {
        assert s[..i] == [s[0]] + s[1..][..i - 1];
      } else {
        assert s == [s[0]] + s[1..];
      }
    }
  }

  // ----- delivery

  /** The source's own test of an entry against an event. */
  predicate Matches(h: Handler, ev: Event) {
    && h.key.nlCmd == ev.cmd
    && (ev.cmd == NL80211_CMD_VENDOR ==> h.key.vendorId == ev.vendorId && h.key.subcmd == ev.subcmd)
  }

  /** The handler at position i is the earliest that matches. */
  ghost predicate FirstMatch(handlers: seq<Handler>, ev: Event, i: int) {
    0 <= i < |handlers| && Matches(handlers[i], ev) && forall j :: 0 <= j < i ==> !Matches(handlers[j], ev)
  }

  /** An event calls the earliest matching callback, once, and no other; without a match, none. */
  lemma DeliveryCallsFirstMatch(handlers: seq<Handler>, ev: Event, cb: Callback)
    requires forall i :: 0 <= i < |handlers| ==> HalInfo.WellKeyed(handlers[i].key)
    ensures Call(cb) in Delivery(handlers, ev) <==> exists i :: FirstMatch(handlers, ev, i) && handlers[i].val == cb
    ensures forall i, j :: 0 <= i < j < |Delivery(handlers, ev)| ==>
              !(Delivery(handlers, ev)[i].Call? && Delivery(handlers, ev)[j].Call?)
  {
    var i := IndexOf(handlers, EventKey(ev));
    assert forall j :: 0 <= j < |handlers| ==> (Matches(handlers[j], ev) <==> handlers[j].key == EventKey(ev));
    if i < |handlers| {
      assert FirstMatch(handlers, ev, i);
    }
  }

  /** The mutex is free when the delivery ends, free while the callback runs, held for the addRef. */
  lemma DeliveryLocking(handlers: seq<Handler>, ev: Event)
    ensures Held(Delivery(handlers, ev)) == Some(false)
    ensures forall i :: 0 <= i < |Delivery(handlers, ev)| && Delivery(handlers, ev)[i].Call? ==>
              Held(Delivery(handlers, ev)[..i]) == Some(false)
    ensures forall i :: 0 <= i < |Delivery(handlers, ev)| && Delivery(handlers, ev)[i].AddRef? ==>
              Held(Delivery(handlers, ev)[..i]) == Some(true)
  {
    var d := Delivery(handlers, ev);
    assert d[..0] == [];
    forall n | 0 <= n < |d| ensures Held(d[..n + 1]) == HeldNext(Held(d[..n]), d[n]) {
      assert d[..n + 1][..n] == d[..n];
    }
    assert Held(d[..1]) == Some(true) && d == d[..|d|];
    assert |d| == 5 ==> Held(d[..2]) == Some(true) && Held(d[..3]) == Some(false) && Held(d[..4]) == Some(false);
  }

  /** How many references to p the actions have taken and not given back. */
  function Refs(actions: seq<Action>, p: Ptr): int {
    if actions == [] then 0
    else
      var last := actions[|actions| - 1];
      Refs(actions[..|actions| - 1], p) + if last == AddRef(p) then 1 else if last == ReleaseRef(p) then -1 else 0
  }

  /** Every command whose callback is run is referenced while it runs, no reference is given back that was not
      taken, and none is left at the end. */
  lemma DeliveryReferences(handlers: seq<Handler>, ev: Event, p: Ptr)
    ensures var d := Delivery(handlers, ev);
            && (forall n :: 0 <= n <= |d| ==> Refs(d[..n], p) >= 0)
            && (forall i :: 0 <= i < |d| && d[i].Call? && d[i].callback.arg == p && p != NULL ==> Refs(d[..i], p) == 1)
            && Refs(d, p) == 0
  {
    var d := Delivery(handlers, ev);
    assert d[..0] == [] && d == d[..|d|];
    forall n | 0 <= n < |d|
      ensures Refs(d[..n + 1], p)
           == Refs(d[..n], p) + if d[n] == AddRef(p) then 1 else if d[n] == ReleaseRef(p) then -1 else 0
    {
      assert d[..n + 1][..n] == d[..n];
    }
    assert Refs(d[..1], p) == 0 && (|d| > 2 ==> Refs(d[..3], p) == Refs(d[..2], p));
  }

  // ----- any sequence of operations on one table

  datatype Op<K, V> = Add(e: Entry<K, V>) | Remove(k: K) | RemoveValue(v: V)

  function Apply<K(==), V(==)>(s: seq<Entry<K, V>>, capacity: nat, op: Op<K, V>): seq<Entry<K, V>> {
    match op
    case Add(e) => Append(s, capacity, e)
    case Remove(k) => RemoveFirst(s, k)
    case RemoveValue(v) => RemoveFirstValue(s, v)
  }

  /** The table after the operations, from an empty one. */
  function After<K(==), V(==)>(capacity: nat, ops: seq<Op<K, V>>): seq<Entry<K, V>> {
    if ops == [] then [] else Apply(After(capacity, ops[..|ops| - 1]), capacity, ops[|ops| - 1])
  }

  /** Everything the operations tried to register, in order. */
  function Added<K, V>(ops: seq<Op<K, V>>): seq<Entry<K, V>> {
    if ops == [] then []
    else
      var rest := Added(ops[..|ops| - 1]);
      if ops[|ops| - 1].Add? then rest + [ops[|ops| - 1].e] else rest
  }

  /** s is t with some elements left out. */
  ghost predicate Subsequence<T>(s: seq<T>, t: seq<T>) {
    s == []
    || (t != [] && (Subsequence(s, t[..|t| - 1])
                    || (s[|s| - 1] == t[|t| - 1] && Subsequence(s[..|s| - 1], t[..|t| - 1]))))
  }

  lemma {:induction false} SubsequenceDrop<T>(s: seq<T>, t: seq<T>, i: nat)
    requires Subsequence(s, t) && i < |s|
    ensures Subsequence(s[..i] + s[i + 1..], t)
  {
    var t', s' := t[..|t| - 1], s[..|s| - 1];
    var cut := s[..i] + s[i + 1..];
    if Subsequence(s, t') {
      SubsequenceDrop(s, t', i);
    } else if i < |s| - 1 {
      SubsequenceDrop(s', t', i);
      assert cut[..|cut| - 1] == s'[..i] + s'[i + 1..];
    } else {
      assert cut == s';
    }
  }

  lemma SubsequenceGrow<T>(s: seq<T>, t: seq<T>, x: T)
    requires Subsequence(s, t)
    ensures Subsequence(s, t + [x]) && Subsequence(s + [x], t + [x])
  {
    assert (t + [x])[..|t|] == t && (s + [x])[..|s|] == s;
  }

  /** Over any sequence of operations the table stays inside its allocation, and what is in it was
      registered, in that order. */
  lemma {:induction false} TableHistory<K, V>(capacity: nat, ops: seq<Op<K, V>>)
    ensures |After(capacity, ops)| <= capacity
    ensures Subsequence(After(capacity, ops), Added(ops))
  {
    if ops != [] {
      var before, op := ops[..|ops| - 1], ops[|ops| - 1];
      TableHistory(capacity, before);
      var s := After(capacity, before);
      match op
      case Add(e) => SubsequenceGrow(s, Added(before), e);
      case Remove(k) =>
        if IndexOf(s, k) < |s| {
          SubsequenceDrop(s, Added(before), IndexOf(s, k));
        }
      case RemoveValue(v) =>
        if i :| 0 <= i < |s| && s[i].val == v && forall j :: 0 <= j < i ==> s[j].val != v {
          RemoveFirstValueAt(s, v, i);
          SubsequenceDrop(s, Added(before), i);
        } else {
          NoFirstValue(s, v, |s|);
          RemoveFirstValueAt(s, v, |s|);
        }
    }
  }

  lemma {:induction false} NoFirstValue<K, V>(s: seq<Entry<K, V>>, v: V, n: nat)
    requires n <= |s|
    requires forall i :: 0 <= i < |s| && s[i].val == v ==> exists j :: 0 <= j < i && s[j].val == v
    ensures forall i :: 0 <= i < n ==> s[i].val != v
  {
    if n > 0 {
      NoFirstValue(s, v, n - 1);
    }
  }
}
