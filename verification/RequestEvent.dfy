/** requestEvent and requestVendorEvent: a handler is registered for the time of one exchange. */
module RequestEvent {
  import opened Assoc
  import opened Hal

  /** Any negative value; the code's number comes from a header that is not part of the repository. */
  const WIFI_ERROR_OUT_OF_MEMORY: int := -9
  const EVENT_HANDLER: nat := 1

  function Temporary(key: Key, self: Ptr): Handler {
    Entry(key, Callback(EVENT_HANDLER, self))
  }

  /** The table after registering and unregistering the key, with nothing else happening in between. */
  function Afterwards(t: seq<Handler>, capacity: nat, key: Key, self: Ptr): seq<Handler> {
    if |t| < capacity then RemoveFirst(t + [Temporary(key, self)], key) else t
  }

  class WifiCommand {
    const info: HalInfo
    const self: Ptr

    constructor (info: HalInfo, self: Ptr)
      ensures this.info == info && this.self == self
    {
      this.info, this.self := info, self;
    }

    /** The three outcomes are those of create(), of sending, and of waiting for the event. */
    method RequestEvent(cmd: int, created: int, sent: int, waited: int) returns (res: int)
      requires info.Valid()
      modifies info`num_event_cb, info.event_cb
      ensures info.Valid()
      ensures res == if |old(info.Handlers())| >= info.event_cb.Length then WIFI_ERROR_OUT_OF_MEMORY
                     else if created < 0 then created else if sent < 0 then sent else waited
      ensures cmd != NL80211_CMD_VENDOR ==>
                info.Handlers() == Afterwards(old(info.Handlers()), info.event_cb.Length, Key(cmd, 0, 0), self)
      ensures cmd == NL80211_CMD_VENDOR ==>
                info.Handlers() == Append(old(info.Handlers()), info.event_cb.Length, Temporary(Key(cmd, 0, 0), self))
    {
      var registered := info.RegisterHandler(cmd, EVENT_HANDLER, self);
      if registered != Success {
        return WIFI_ERROR_OUT_OF_MEMORY;
      }
      res := created;
      if res >= 0 {
        res := sent;
        if res >= 0 {
          res := waited;
        }
      }
      info.UnregisterHandler(cmd);
    }

    method RequestVendorEvent(id: int, subcmd: int, created: int, sent: int, waited: int) returns (res: int)
      requires info.Valid()
      modifies info`num_event_cb, info.event_cb
      ensures info.Valid()
      ensures res == if |old(info.Handlers())| >= info.event_cb.Length then WIFI_ERROR_OUT_OF_MEMORY
                     else if created < 0 then created else if sent < 0 then sent else waited
      ensures info.Handlers()
           == Afterwards(old(info.Handlers()), info.event_cb.Length, Key(NL80211_CMD_VENDOR, id, subcmd), self)
    {
      var registered := info.RegisterVendorHandler(id, subcmd, EVENT_HANDLER, self);
      if registered != Success {
        return WIFI_ERROR_OUT_OF_MEMORY;
      }
      res := created;
      if res >= 0 {
        res := sent;
        if res >= 0 {
          res := waited;
        }
      }
      info.UnregisterVendorHandler(id, subcmd);
    }
  }

  /** For a command that has no handler yet, the table is restored if and only if the registration was
      refused or the key was absent. */
  lemma RestoredIffAbsent(t: seq<Handler>, capacity: nat, key: Key, self: Ptr)
    requires Temporary(key, self) !in t
    ensures Afterwards(t, capacity, key, self) == t <==> |t| >= capacity || !HasKey(t, key)
  {
    var e := Temporary(key, self);
    if |t| < capacity {
      if HasKey(t, key) {
        var i := IndexOf(t, key);
        IndexOfUnique(t + [e], key, i);
        var after := Afterwards(t, capacity, key, self);
        assert after[|t| - 1] == e;
        assert t[|t| - 1] in t;
      } else {
        RemoveAppended(t, capacity, e);
      }
    }
  }

  /** The vendor command registered as a plain command is never unregistered: the table is restored only
      when it was full. */
  lemma VendorAsPlainStays(t: seq<Handler>, capacity: nat, self: Ptr)
    ensures Append(t, capacity, Temporary(Key(NL80211_CMD_VENDOR, 0, 0), self)) == t <==> |t| >= capacity
  {
  }

  /** While it waits, the command is called for its event, whatever the other fields of a plain event; once it is
      done nobody is. */
  lemma WaiterHears(t: seq<Handler>, capacity: nat, ev: Event, self: Ptr)
    requires var key := if ev.cmd == 103 then Key(103, ev.vendorId, ev.subcmd) else Key(ev.cmd, 0, 0);
             |t| < capacity && !HasKey(t, key)
    ensures var key := if ev.cmd == 103 then Key(103, ev.vendorId, ev.subcmd) else Key(ev.cmd, 0, 0);
            && Call(Callback(1, self)) in Delivery(t + [Temporary(key, self)], ev)
            && forall cb :: Call(cb) !in Delivery(Afterwards(t, capacity, key, self), ev)
  {
    var key := EventKey(ev);
    IndexOfUnique(t + [Temporary(key, self)], key, |t|);
    RemoveAppended(t, capacity, Temporary(key, self));
    assert Lookup(t, key) == None;
  }

  // ----- other threads at work while the command waits

  predicate AvoidsKey(op: Op<Key, Callback>, key: Key) {
    match op
    case Add(e) => e.key != key
    case Remove(k) => k != key
    case RemoveValue(_) => false
  }

  function Applied(t: seq<Handler>, capacity: nat, ops: seq<Op<Key, Callback>>): seq<Handler> {
    if ops == [] then t else Apply(Applied(t, capacity, ops[..|ops| - 1]), capacity, ops[|ops| - 1])
  }

  function Cut(t: seq<Handler>, i: nat): (r: seq<Handler>)
    requires i < |t|
    ensures |r| == |t| - 1 && forall m :: 0 <= m < |r| ==> r[m] == if m < i then t[m] else t[m + 1]
  {
    t[..i] + t[i + 1..]
  }

  lemma CutTwice(t: seq<Handler>, i: nat, j: nat)
    requires i < j < |t|
    ensures Cut(Cut(t, i), j - 1) == Cut(Cut(t, j), i)
  {
    var a, b := Cut(t, i), Cut(t, j);
    assert Cut(a, j - 1) == t[..i] + t[i + 1..j] + t[j + 1..];
    assert Cut(b, i) == t[..i] + t[i + 1..j] + t[j + 1..];
  }

  lemma RemoveInOrder(t: seq<Handler>, k: Key, l: Key)
    requires k != l && IndexOf(t, k) < IndexOf(t, l)
    ensures RemoveFirst(RemoveFirst(t, k), l) == RemoveFirst(RemoveFirst(t, l), k)
  {
    var i, j := IndexOf(t, k), IndexOf(t, l);
    var a := Cut(t, i);
    assert RemoveFirst(t, k) == a;
    IndexOfUnique(a, l, j - 1);
    if j < |t| {
      var b := Cut(t, j);
      IndexOfUnique(b, k, i);
      CutTwice(t, i, j);
      assert RemoveFirst(a, l) == Cut(a, j - 1) && RemoveFirst(b, k) == Cut(b, i) && RemoveFirst(t, l) == b;
    }
  }

  lemma RemoveCommutes(t: seq<Handler>, k: Key, l: Key)
    requires k != l
    ensures RemoveFirst(RemoveFirst(t, k), l) == RemoveFirst(RemoveFirst(t, l), k)
  {
    if IndexOf(t, k) < IndexOf(t, l) {
      RemoveInOrder(t, k, l);
    } else if IndexOf(t, l) < IndexOf(t, k) {
      RemoveInOrder(t, l, k);
    }
  }

  /** Whatever other threads register and unregister under other keys in between, the exchange as a whole
      leaves the table as if it had not happened and the table had been one slot smaller for them. */
  lemma {:induction false} OthersUndisturbed(t: seq<Handler>, capacity: nat, key: Key, self: Ptr,
                                              ops: seq<Op<Key, Callback>>)
    requires |t| < capacity && !HasKey(t, key) && forall op :: op in ops ==> AvoidsKey(op, key)
    ensures var during := Applied(t + [Temporary(key, self)], capacity, ops);
            HasKey(during, key) && RemoveFirst(during, key) == Applied(t, capacity - 1, ops)
  {
    if ops == [] {
      assert (t + [Temporary(key, self)])[|t|].key == key;
      RemoveAppended(t, capacity, Temporary(key, self));
    } else {
      var before, op := ops[..|ops| - 1], ops[|ops| - 1];
      assert AvoidsKey(op, key) by {
        assert op in ops;
      }
      OthersUndisturbed(t, capacity, key, self, before);
      OneMore(Applied(t + [Temporary(key, self)], capacity, before), capacity, key, op);
    }
  }

  /** One operation under another key, on a table that holds the key. */
  lemma OneMore(s: seq<Handler>, capacity: nat, key: Key, op: Op<Key, Callback>)
    requires HasKey(s, key) && AvoidsKey(op, key) && capacity > 0
    ensures HasKey(Apply(s, capacity, op), key)
    ensures RemoveFirst(Apply(s, capacity, op), key) == Apply(RemoveFirst(s, key), capacity - 1, op)
  {
    var i := IndexOf(s, key);
    match op
    case Add(e) =>
      if |s| < capacity {
        IndexOfUnique(s + [e], key, i);
        assert (s + [e])[i].key == key;
      }
    case Remove(l) =>
      RemoveCommutes(s, key, l);
      RemoveKeepsOthers(s, l, s[i]);
  }
}
