/** The frequencies the interfaces of one radio share, as the vendor supplicant library collects them. */
module SharedFreqs {
  import opened Assoc

  datatype Mode = Infra | Ap | P2pGo | OtherMode

  datatype Ssid = Ssid(mode: Mode, frequency: int, p2pGroup: bool)

  /** An interface; bssidKnown says whether asking the driver for its BSSID succeeds. */
  datatype Interface = Interface(currentSsid: Option<Ssid>, assocFreq: int, bssidKnown: bool)

  const USED_BY_INFRA_STATION: int := 1
  const USED_BY_P2P_CLIENT: int := 2

  datatype UsedFreq = UsedFreq(freq: int, flags: int)

  // ----- what should be collected

  /** The frequency an interface uses, if it counts at all. */
  function FreqOf(ifs: Interface): Option<int> {
    if ifs.currentSsid.None? || ifs.assocFreq == 0 then None
    else if ifs.currentSsid.value.mode in [Ap, P2pGo] then Some(ifs.currentSsid.value.frequency)
    else if ifs.bssidKnown then Some(ifs.assocFreq)
    else None
  }

  /** The frequencies in use, one for each interface that counts. */
  function InUse(ifaces: seq<Interface>): seq<int> {
    if ifaces == [] then []
    else
      var f := FreqOf(ifaces[|ifaces| - 1]);
      InUse(ifaces[..|ifaces| - 1]) + if f.Some? then [f.value] else []
  }

  /** Each value once, where it occurs first. */
  function Distinct(s: seq<int>): seq<int> {
    if s == [] then []
    else
      var d, x := Distinct(s[..|s| - 1]), s[|s| - 1];
      if x in d then d else d + [x]
  }

  function Frequencies(ifaces: seq<Interface>): seq<int> {
    Distinct(InUse(ifaces))
  }

  function Cut<T>(s: seq<T>, len: nat): seq<T> {
    if |s| <= len then s else s[..len]
  }

  predicate IsInfraOn(ifs: Interface, freq: int) {
    FreqOf(ifs) == Some(freq) && ifs.currentSsid.value.mode == Infra
  }

  /** The flags of the last infrastructure interface on a frequency; 0 when there is none. */
  function FlagsOn(ifaces: seq<Interface>, freq: int): int {
    if ifaces == [] then 0
    else
      var last := ifaces[|ifaces| - 1];
      if IsInfraOn(last, freq) then Flags(last.currentSsid.value) else FlagsOn(ifaces[..|ifaces| - 1], freq)
  }

  /** How many interfaces are looked at before the array is found full. */
  function Processed(ifaces: seq<Interface>, len: nat): (p: nat)
    ensures p <= |ifaces|
  {
    if ifaces == [] then 0
    else
      var before := ifaces[..|ifaces| - 1];
      var p := Processed(before, len);
      if p < |before| || |Frequencies(before)| >= len then p else |ifaces|
  }

  /** The list with flags: what the first entries of the array should be. */
  function Entries(ifaces: seq<Interface>): (e: seq<UsedFreq>)
    ensures |e| == |Frequencies(ifaces)|
  {
    var f := Frequencies(ifaces);
    seq(|f|, k requires 0 <= k < |f| => UsedFreq(f[k], FlagsOn(ifaces, f[k])))
  }

  // ----- the collector

  /** The interfaces are looked at in order until the array is full; nothing past len is written. */
  method GetSharedRadioFreqsData(ifaces: seq<Interface>, freqsData: array<UsedFreq>, len: nat) returns (idx: nat)
    requires len <= freqsData.Length
    modifies freqsData
    ensures idx == |Cut(Frequencies(ifaces), len)|
    ensures freqsData[..idx] == Entries(ifaces[..Processed(ifaces, len)])
    ensures forall k :: 0 <= k < idx ==> freqsData[k].freq == Cut(Frequencies(ifaces), len)[k]
    ensures forall k :: idx <= k < len ==> freqsData[k] == UsedFreq(0, 0)
    ensures forall k :: len <= k < freqsData.Length ==> freqsData[k] == old(freqsData[k])
  {
    hide Frequencies, FlagsOn, FreqOf, IsInfraOn, Noted;
    forall k | 0 <= k < len {
      freqsData[k] := UsedFreq(0, 0);
    }
    idx := 0;
    assert Entries([]) == [] by { NoEntries(); }
    var n := 0;
    while n < |ifaces|
      invariant n <= |ifaces| && Processed(ifaces[..n], len) == n
      invariant idx <= len && freqsData[..idx] == Entries(ifaces[..n])
      invariant forall k :: idx <= k < len ==> freqsData[k] == UsedFreq(0, 0)
      invariant forall k :: len <= k < freqsData.Length ==> freqsData[k] == old(freqsData[k])
    {
      if idx == len {
        break;
      }
      assert ifaces[..n + 1][..n] == ifaces[..n];
      EntriesStep(ifaces[..n + 1]);
      idx := Consider(ifaces[n], freqsData, idx, len);
      n := n + 1;
    }
    StopsAt(ifaces, len, n);
    EntriesFreqs(ifaces[..n]);
  }

  lemma NoEntries()
    ensures Frequencies([]) == [] && Entries([]) == []
  {
  }

  lemma EntriesFreqs(ifaces: seq<Interface>)
    ensures forall k :: 0 <= k < |Entries(ifaces)| ==> Entries(ifaces)[k].freq == Frequencies(ifaces)[k]
  {
  }

  /** The loop body, for one interface. */
  method Consider(ifs: Interface, freqsData: array<UsedFreq>, used: nat, len: nat) returns (idx: nat)
    requires used < len <= freqsData.Length && freqsData[used] == UsedFreq(0, 0)
    modifies freqsData
    ensures used <= idx <= used + 1
    ensures freqsData[..idx]
         == if FreqOf(ifs).None? then old(freqsData[..used])
            else Noted(old(freqsData[..used]), FreqOf(ifs).value, ifs.currentSsid.value)
    ensures forall k :: idx <= k < freqsData.Length ==> freqsData[k] == old(freqsData[k])
  {
    idx := used;
    if ifs.currentSsid == None || ifs.assocFreq == 0 {
      return;
    }
    var ssid := ifs.currentSsid.value;
    var freq;
    if ssid.mode == Ap || ssid.mode == P2pGo {
      freq := ssid.frequency;
    } else if ifs.bssidKnown {
      freq := ifs.assocFreq;
    } else {
      return;
    }
    var i := 0;
    while i < idx && freqsData[i].freq != freq
      invariant i <= idx && Position(freqsData[..used], freq) == i + Position(freqsData[i..used], freq)
    {
      assert freqsData[i..used][1..] == freqsData[i + 1..used];
      i := i + 1;
    }
    ghost var before := freqsData[..used];
    assert i == Position(before, freq);
    if i == idx {
      freqsData[idx] := freqsData[idx].(freq := freq);
      idx := idx + 1;
      assert freqsData[..idx] == before + [UsedFreq(freq, 0)];
    }
    ghost var added := freqsData[..idx];
    if ssid.mode == Infra {
      freqsData[i] := freqsData[i].(flags := Flags(ssid));
      assert freqsData[..idx] == added[i := added[i].(flags := Flags(ssid))];
    }
  }

  function Flags(ssid: Ssid): int {
    if ssid.p2pGroup then USED_BY_P2P_CLIENT else USED_BY_INFRA_STATION
  }

  /** The index of the first entry for a frequency; the length when there is none. */
  function Position(entries: seq<UsedFreq>, freq: int): (i: nat)
    ensures i <= |entries|
    ensures i < |entries| ==> entries[i].freq == freq
    ensures forall j :: 0 <= j < i ==> entries[j].freq != freq
  {
    if entries == [] || entries[0].freq == freq then 0 else 1 + Position(entries[1..], freq)
  }

  function Noted(entries: seq<UsedFreq>, freq: int, ssid: Ssid): seq<UsedFreq> {
    var i := Position(entries, freq);
    var e := if i == |entries| then entries + [UsedFreq(freq, 0)] else entries;
    if ssid.mode == Infra then e[i := e[i].(flags := Flags(ssid))] else e
  }

  /** One more interface: nothing changes if it does not count, else its frequency is noted. */
  lemma EntriesStep(ifaces: seq<Interface>)
    requires ifaces != []
    ensures var before, last := ifaces[..|ifaces| - 1], ifaces[|ifaces| - 1];
            Entries(ifaces) == if FreqOf(last).None? then Entries(before)
                               else Noted(Entries(before), FreqOf(last).value, last.currentSsid.value)
  {
    hide Frequencies, FlagsOn, FreqOf;
    var before, last := ifaces[..|ifaces| - 1], ifaces[|ifaces| - 1];
    FrequenciesStep(ifaces);
    FlagsStep(ifaces);
    if FreqOf(last).Some? {
      PositionOf(before, FreqOf(last).value);
      FlagsOfNew(before, FreqOf(last).value);
    }
  }

  lemma FlagsStep(ifaces: seq<Interface>)
    requires ifaces != []
    ensures var before, last := ifaces[..|ifaces| - 1], ifaces[|ifaces| - 1];
            forall f :: FlagsOn(ifaces, f)
                     == if FreqOf(last) == Some(f) && last.currentSsid.value.mode == Infra
                        then Flags(last.currentSsid.value) else FlagsOn(before, f)
  {
  }

  /** Where a frequency stands in the list: it is the only place that holds it. */
  lemma PositionOf(ifaces: seq<Interface>, f: int)
    ensures var i := Position(Entries(ifaces), f);
            && (i == |Frequencies(ifaces)| <==> f !in Frequencies(ifaces))
            && forall k :: 0 <= k < |Frequencies(ifaces)| ==> (Frequencies(ifaces)[k] == f <==> k == i)
  {
    DistinctSpec(InUse(ifaces));
    EntriesFreqs(ifaces);
    hide FlagsOn, Entries;
    var list, i := Frequencies(ifaces), Position(Entries(ifaces), f);
    forall k | 0 <= k < |list| ensures list[k] == f <==> k == i {
      assert Entries(ifaces)[k].freq == list[k];
      assert i < |list| ==> list[i] == f;
    }
  }

  lemma FrequenciesStep(ifaces: seq<Interface>)
    requires ifaces != []
    ensures var before, f := ifaces[..|ifaces| - 1], FreqOf(ifaces[|ifaces| - 1]);
            Frequencies(ifaces) == if f.None? || f.value in Frequencies(before) then Frequencies(before)
                                   else Frequencies(before) + [f.value]
  {
    var before, f := ifaces[..|ifaces| - 1], FreqOf(ifaces[|ifaces| - 1]);
    if f.Some? {
      assert InUse(ifaces)[..|InUse(before)|] == InUse(before);
    } else {
      assert InUse(ifaces) == InUse(before);
    }
  }

  /** The frequencies as a plain array of numbers; -1 when the scratch array cannot be allocated. */
  method GetSharedRadioFreqs(ifaces: seq<Interface>, freqArray: array<int>, len: nat, memory: bool)
    returns (num: int)
    requires len <= freqArray.Length
    modifies freqArray
    ensures num == if memory then |Cut(Frequencies(ifaces), len)| else -1
    ensures memory ==> freqArray[..num] == Cut(Frequencies(ifaces), len)
    ensures memory ==> forall f :: f in freqArray[..num] ==>
              exists ifs :: ifs in ifaces && ifs.currentSsid.Some? && ifs.assocFreq != 0 &&
                if ifs.currentSsid.value.mode == Ap || ifs.currentSsid.value.mode == P2pGo
                then f == ifs.currentSsid.value.frequency else ifs.bssidKnown && f == ifs.assocFreq
    ensures memory && num < len ==> forall ifs :: ifs in ifaces && ifs.currentSsid.Some? && ifs.assocFreq != 0 ==>
              if ifs.currentSsid.value.mode == Ap || ifs.currentSsid.value.mode == P2pGo
              then ifs.currentSsid.value.frequency in freqArray[..num]
              else ifs.bssidKnown ==> ifs.assocFreq in freqArray[..num]
    ensures forall k :: 0 <= k < len && num <= k ==> freqArray[k] == 0
    ensures forall k :: len <= k < freqArray.Length ==> freqArray[k] == old(freqArray[k])
  {
    forall k | 0 <= k < len {
      freqArray[k] := 0;
    }
    if !memory {
      return -1;
    }
    var freqsData := new UsedFreq[len](_ => UsedFreq(0, 0));
    num := GetSharedRadioFreqsData(ifaces, freqsData, len);
    assert num <= len;
    ghost var collected := freqsData[..];
    for i := 0 to num
      invariant freqsData[..] == collected
      invariant forall k :: 0 <= k < i ==> freqArray[k] == freqsData[k].freq
      invariant forall k :: i <= k < len ==> freqArray[k] == 0
      invariant forall k :: len <= k < freqArray.Length ==> freqArray[k] == old(freqArray[k])
    {
      freqArray[i] := freqsData[i].freq;
    }
    assert forall k :: 0 <= k < num ==> freqArray[k] == Cut(Frequencies(ifaces), len)[k];
    SharedFreqsSpec(ifaces, len);
  }

  // ----- what the collected list is

  /** The same values, none twice, in the order of their first occurrences. */
  lemma {:induction false} DistinctSpec(s: seq<int>)
    ensures forall x :: x in Distinct(s) <==> x in s
    ensures forall i, j :: 0 <= i < j < |Distinct(s)| ==> Distinct(s)[i] != Distinct(s)[j]
    ensures forall i, j :: 0 <= i < j < |Distinct(s)| ==> First(s, Distinct(s)[i]) < First(s, Distinct(s)[j])
  {
    if s != [] {
      var before, x := s[..|s| - 1], s[|s| - 1];
      DistinctSpec(before);
      assert s == before + [x];
      forall y | y in before ensures First(s, y) == First(before, y) < |before| {
        FirstOfPrefix(before, x, y);
      }
      if x !in before {
        FirstOfNew(before, x);
      }
    }
  }

  /** The index of the first occurrence; the length when there is none. */
  function First(s: seq<int>, x: int): (i: nat)
    ensures i <= |s|
  {
    if s == [] || s[0] == x then 0 else 1 + First(s[1..], x)
  }

  lemma {:induction false} FirstOfPrefix(s: seq<int>, x: int, y: int)
    requires y in s
    ensures First(s + [x], y) == First(s, y) < |s|
  {
    if s[0] != y {
      assert (s + [x])[1..] == s[1..] + [x];
      FirstOfPrefix(s[1..], x, y);
    }
  }

  lemma {:induction false} FirstOfNew(s: seq<int>, x: int)
    requires x !in s
    ensures First(s + [x], x) == |s|
  {
    if s != [] {
      assert (s + [x])[1..] == s[1..] + [x];
      FirstOfNew(s[1..], x);
    }
  }

  /** A frequency is in use exactly when some interface uses it. */
  lemma {:induction false} InUseSpec(ifaces: seq<Interface>, f: int)
    ensures f in InUse(ifaces) <==> exists ifs :: ifs in ifaces && FreqOf(ifs) == Some(f)
  {
    if ifaces != [] {
      var before, last := ifaces[..|ifaces| - 1], ifaces[|ifaces| - 1];
      InUseSpec(before, f);
      assert ifaces == before + [last];
    }
  }

  /** No number is returned twice; each is the SSID's frequency of an access point or group owner, or the
      associated frequency of another interface with a known BSSID; if fewer than len are returned none is
      missing. */
  lemma SharedFreqsSpec(ifaces: seq<Interface>, len: nat)
    ensures var r := Cut(Frequencies(ifaces), len);
            && |r| <= len
            && (forall i, j :: 0 <= i < j < |r| ==> r[i] != r[j])
            && (forall f :: f in r ==>
                  exists ifs :: ifs in ifaces && ifs.currentSsid.Some? && ifs.assocFreq != 0 &&
                    if ifs.currentSsid.value.mode == Ap || ifs.currentSsid.value.mode == P2pGo
                    then f == ifs.currentSsid.value.frequency else ifs.bssidKnown && f == ifs.assocFreq)
            && (|r| < len ==>
                  forall ifs :: ifs in ifaces && ifs.currentSsid.Some? && ifs.assocFreq != 0 ==>
                    if ifs.currentSsid.value.mode == Ap || ifs.currentSsid.value.mode == P2pGo
                    then ifs.currentSsid.value.frequency in r else ifs.bssidKnown ==> ifs.assocFreq in r)
  {
    var r := Cut(Frequencies(ifaces), len);
    DistinctSpec(InUse(ifaces));
    forall f | f in r ensures exists ifs :: ifs in ifaces && FreqOf(ifs) == Some(f) {
      assert f in Frequencies(ifaces);
      InUseSpec(ifaces, f);
    }
    forall ifs | ifs in ifaces && FreqOf(ifs).Some? && |r| < len ensures FreqOf(ifs).value in r {
      InUseSpec(ifaces, FreqOf(ifs).value);
    }
  }

  /** The flags noted for a frequency: 2 for a P2P group and 1 for a plain network, from the last station with
      a known BSSID associated on it; 0 when there is none. */
  lemma FlagsSpec(ifaces: seq<Interface>, k: nat)
    requires k < |Entries(ifaces)|
    ensures var e := Entries(ifaces)[k];
            var on := seq(|ifaces|, i requires 0 <= i < |ifaces| =>
              var ifs := ifaces[i];
              ifs.currentSsid.Some? && ifs.currentSsid.value.mode == Infra && ifs.bssidKnown &&
              ifs.assocFreq == e.freq != 0);
            && (true !in on ==> e.flags == 0)
            && forall i :: 0 <= i < |on| && on[i] && true !in on[i + 1..] ==>
                 e.flags == if ifaces[i].currentSsid.value.p2pGroup then 2 else 1
  {
    hide Frequencies, FlagsOn, IsInfraOn;
    var f := Entries(ifaces)[k].freq;
    var on := seq(|ifaces|, i requires 0 <= i < |ifaces| =>
      var ifs := ifaces[i];
      ifs.currentSsid.Some? && ifs.currentSsid.value.mode == Infra && ifs.bssidKnown && ifs.assocFreq == f != 0);
    forall i | 0 <= i < |ifaces| ensures on[i] <==> IsInfraOn(ifaces[i], f) {
      StationsRaw(ifaces[i], f);
    }
    if true !in on {
      forall i | 0 <= i < |ifaces| ensures !IsInfraOn(ifaces[i], f) {
        assert on[i] in on;
      }
      NoStation(ifaces, f);
    }
    forall i | 0 <= i < |on| && on[i] && true !in on[i + 1..]
      ensures FlagsOn(ifaces, f) == if ifaces[i].currentSsid.value.p2pGroup then 2 else 1
    {
      forall j | i < j < |ifaces| ensures !IsInfraOn(ifaces[j], f) {
        assert on[i + 1..][j - i - 1] == on[j];
      }
      LastStation(ifaces, f, i);
    }
  }

  lemma StationsRaw(ifs: Interface, f: int)
    ensures IsInfraOn(ifs, f) <==> ifs.currentSsid.Some? && ifs.currentSsid.value.mode == Infra &&
                                   ifs.bssidKnown && ifs.assocFreq == f != 0
  {
  }

  lemma {:induction false} NoStation(ifaces: seq<Interface>, f: int)
    requires forall i :: 0 <= i < |ifaces| ==> !IsInfraOn(ifaces[i], f)
    ensures FlagsOn(ifaces, f) == 0
  {
    hide IsInfraOn;
    if ifaces != [] {
      NoStation(ifaces[..|ifaces| - 1], f);
    }
  }

  lemma {:induction false} LastStation(ifaces: seq<Interface>, f: int, i: nat)
    requires i < |ifaces| && IsInfraOn(ifaces[i], f)
    requires forall j :: i < j < |ifaces| ==> !IsInfraOn(ifaces[j], f)
    ensures ifaces[i].currentSsid.Some? && FlagsOn(ifaces, f) == Flags(ifaces[i].currentSsid.value)
  {
    hide FreqOf;
    if i < |ifaces| - 1 {
      LastStation(ifaces[..|ifaces| - 1], f, i);
    } else {
      StationsRaw(ifaces[i], f);
    }
  }

  /** The loop stops before the first interface at which the array is full. */
  lemma {:induction false} ProcessedSpec(ifaces: seq<Interface>, len: nat)
    ensures var p := Processed(ifaces, len);
            && (p < |ifaces| ==> |Frequencies(ifaces[..p])| == len)
            && forall n :: 0 <= n < p ==> |Frequencies(ifaces[..n])| < len
  {
    hide Frequencies;
    if ifaces != [] {
      var before, p := ifaces[..|ifaces| - 1], Processed(ifaces, len);
      ProcessedSpec(before, len);
      forall n | 0 <= n <= |before| ensures before[..n] == ifaces[..n] {
      }
      assert |Frequencies([])| == 0 by { NoEntries(); }
      assert ifaces[..|ifaces|] == ifaces;
      if before != [] {
        FrequenciesStep(before);
      }
    }
  }

  lemma {:induction false} FrequenciesGrow(ifaces: seq<Interface>, n: nat)
    requires n <= |ifaces|
    ensures Frequencies(ifaces[..n]) <= Frequencies(ifaces)
  {
    if n < |ifaces| {
      var before := ifaces[..|ifaces| - 1];
      FrequenciesGrow(before, n);
      assert before[..n] == ifaces[..n];
      var s := InUse(ifaces);
      assert s == InUse(before) || s[..|s| - 1] == InUse(before);
    } else {
      assert ifaces[..n] == ifaces;
    }
  }

  lemma {:induction false} ProcessedStays(ifaces: seq<Interface>, len: nat, n: nat)
    requires n <= |ifaces| && |Frequencies(ifaces[..n])| >= len && Processed(ifaces[..n], len) == n
    ensures Processed(ifaces, len) == n
  {
    if n == |ifaces| {
      assert ifaces[..n] == ifaces;
    } else {
      var before := ifaces[..|ifaces| - 1];
      assert before[..n] == ifaces[..n];
      ProcessedStays(before, len, n);
      FrequenciesGrow(before, n);
    }
  }

  lemma StopsAt(ifaces: seq<Interface>, len: nat, n: nat)
    requires n <= |ifaces| && Processed(ifaces[..n], len) == n && |Frequencies(ifaces[..n])| <= len
    requires n == |ifaces| || |Frequencies(ifaces[..n])| == len
    ensures Processed(ifaces, len) == n && Cut(Frequencies(ifaces), len) == Frequencies(ifaces[..n])
  {
    if n == |ifaces| {
      assert ifaces[..n] == ifaces;
    } else {
      ProcessedStays(ifaces, len, n);
    }
    FrequenciesGrow(ifaces, n);
  }

  /** A frequency no interface uses yet has no flags. */
  lemma {:induction false} FlagsOfNew(ifaces: seq<Interface>, f: int)
    ensures f !in Frequencies(ifaces) ==> FlagsOn(ifaces, f) == 0
  {
    if f !in Frequencies(ifaces) && ifaces != [] {
      var before := ifaces[..|ifaces| - 1];
      FrequenciesGrow(ifaces, |before|);
      FlagsOfNew(before, f);
      DistinctSpec(InUse(ifaces));
      DistinctSpec(InUse(before));
    }
  }

  /** All interfaces are looked at exactly when those before the last leave room; the last one then decides.
      So flags are those of all interfaces whenever fewer than len frequencies are returned. */
  lemma {:induction false} ProcessedAll(ifaces: seq<Interface>, len: nat)
    requires ifaces != []
    ensures Processed(ifaces, len) == |ifaces| <==> |Frequencies(ifaces[..|ifaces| - 1])| < len
  {
    var before := ifaces[..|ifaces| - 1];
    if before != [] {
      ProcessedAll(before, len);
      FrequenciesGrow(before, |before| - 1);
    }
  }
}
