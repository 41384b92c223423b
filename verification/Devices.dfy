/** Audio devices as the user picks them: duplicates collapsed by id and then grouped by name. */
module Devices {
  import opened Prelude

  const DEFAULT_INPUT_DEVICE_ID := "default-input"
  const DEFAULT_OUTPUT_DEVICE_ID := "default-output"

  datatype Device = Device(id: string, name: string, isDefault: bool, groupedCount: nat)

  datatype Phase = ById | ByName

  function KeyOf(d: Device, phase: Phase): string {
    match phase
    case ById => d.id
    case ByName => d.name
  }

  predicate IsSystemDefault(d: Device) {
    d.id == DEFAULT_INPUT_DEVICE_ID || d.id == DEFAULT_OUTPUT_DEVICE_ID
  }

  // ----- Grouping as the program does it, one device at a time -----

  /** The position of the device with this key. */
  function Find(devices: seq<Device>, phase: Phase, key: string): (r: Option<nat>)
    ensures r.Some? ==> r.value < |devices| && KeyOf(devices[r.value], phase) == key
    ensures r.None? ==> forall i :: 0 <= i < |devices| ==> KeyOf(devices[i], phase) != key
  {
    if devices == [] then None
    else if KeyOf(devices[|devices| - 1], phase) == key then Some(|devices| - 1)
    else Find(devices[..|devices| - 1], phase, key)
  }

  /** Folds `d` into the entry of its group: the first default device lends the group its id. */
  function Absorb(e: Device, d: Device): Device {
    Device(if d.isDefault && !e.isDefault then d.id else e.id, e.name, e.isDefault || d.isDefault,
           e.groupedCount + d.groupedCount)
  }

  function AddDevice(out: seq<Device>, phase: Phase, d: Device): seq<Device> {
    match Find(out, phase, KeyOf(d, phase))
    case None => out + [d]
    case Some(i) => out[i := Absorb(out[i], d)]
  }

  function Group(devices: seq<Device>, phase: Phase): seq<Device> {
    if devices == [] then []
    else AddDevice(Group(devices[..|devices| - 1], phase), phase, devices[|devices| - 1])
  }

  function Select(devices: seq<Device>, systemDefault: bool): seq<Device> {
    if devices == [] then []
    else
      var n := |devices| - 1;
      Select(devices[..n], systemDefault) + if IsSystemDefault(devices[n]) == systemDefault then [devices[n]] else []
  }

  function Deduplicate(devices: seq<Device>): seq<Device> {
    Select(devices, true) + Group(Group(Select(devices, false), ById), ByName)
  }

  /** The index holds the position of every key. */
  ghost predicate IndexOk(index: map<string, nat>, out: seq<Device>, phase: Phase) {
    && (forall k :: k in index ==> index[k] < |out| && KeyOf(out[index[k]], phase) == k)
    && (forall i :: 0 <= i < |out| ==> KeyOf(out[i], phase) in index && index[KeyOf(out[i], phase)] == i)
  }

  method GroupDevices(devices: seq<Device>, phase: Phase) returns (out: seq<Device>)
    ensures out == Group(devices, phase)
  {
    hide IndexOk, AddDevice;
    out := [];
    var index: map<string, nat> := map[];
    NothingIndexed(phase);
    for n := 0 to |devices|
      invariant out == Group(devices[..n], phase)
      invariant IndexOk(index, out, phase)
    {
      assert devices[..n + 1][..n] == devices[..n];
      out, index := GroupOne(out, index, phase, devices[n]);
    }
    assert devices[..|devices|] == devices;
  }

  lemma NothingIndexed(phase: Phase)
    ensures IndexOk(map[], [], phase)
  {
  }

  method GroupOne(before: seq<Device>, known: map<string, nat>, phase: Phase, device: Device)
    returns (out: seq<Device>, index: map<string, nat>)
    requires IndexOk(known, before, phase)
    ensures out == AddDevice(before, phase, device) && IndexOk(index, out, phase)
  {
    hide Find;
    out, index := before, known;
    var key := KeyOf(device, phase);
    if key in index {
      var i := index[key];
      assert Find(before, phase, key) == Some(i);
      out := out[i := out[i].(groupedCount := out[i].groupedCount + device.groupedCount)];
      if device.isDefault && !out[i].isDefault {
        out := out[i := out[i].(isDefault := true, id := device.id)];
      }
      assert KeyOf(out[i], phase) == key;
    } else {
      index := index[key := |out|];
      out := out + [device];
    }
  }

  method DeduplicateDevices(devices: seq<Device>) returns (result: seq<Device>)
    ensures result == Deduplicate(devices)
  {
    var systemDefaults: seq<Device>, concrete: seq<Device> := [], [];
    for n := 0 to |devices|
      invariant systemDefaults == Select(devices[..n], true) && concrete == Select(devices[..n], false)
    {
      assert devices[..n + 1][..n] == devices[..n];
      if IsSystemDefault(devices[n]) {
        systemDefaults := systemDefaults + [devices[n]];
      } else {
        concrete := concrete + [devices[n]];
      }
    }
    assert devices[..|devices|] == devices;
    var idDeduped := GroupDevices(concrete, ById);
    var nameDeduped := GroupDevices(idDeduped, ByName);
    result := systemDefaults + nameDeduped;
  }

  // ----- Grouping as it is meant -----

  /** The keys in the order they are first seen. */
  function Keys(devices: seq<Device>, phase: Phase): seq<string> {
    if devices == [] then []
    else
      var before := Keys(devices[..|devices| - 1], phase);
      var key := KeyOf(devices[|devices| - 1], phase);
      if key in before then before else before + [key]
  }

  function Members(devices: seq<Device>, phase: Phase, key: string): seq<Device> {
    if devices == [] then []
    else
      var n := |devices| - 1;
      Members(devices[..n], phase, key) + if KeyOf(devices[n], phase) == key then [devices[n]] else []
  }

  function Total(devices: seq<Device>): nat {
    if devices == [] then 0 else Total(devices[..|devices| - 1]) + devices[|devices| - 1].groupedCount
  }

  predicate HasDefault(devices: seq<Device>) {
    exists i :: 0 <= i < |devices| && devices[i].isDefault
  }

  /** `e` stands for the group: its first default device, or else its first, lends the id. */
  ghost predicate StandsFor(e: Device, members: seq<Device>) {
    && members != []
    && e.name == members[0].name
    && e.groupedCount == Total(members)
    && (e.isDefault <==> HasDefault(members))
    && (exists i :: && 0 <= i < |members| && e.id == members[i].id
                    && (if HasDefault(members)
                        then members[i].isDefault && forall j :: 0 <= j < i ==> !members[j].isDefault
                        else i == 0))
  }

  lemma StandsForOne(d: Device)
    ensures StandsFor(d, [d])
  {
    assert [d][..0] == [];
    assert Total([d]) == d.groupedCount;
    assert [d][0] == d;
  }

  lemma StandsForMore(e: Device, members: seq<Device>, d: Device)
    requires StandsFor(e, members)
    ensures StandsFor(Absorb(e, d), members + [d])
  {
    var all, n := members + [d], |members|;
    assert all[..n] == members && all[n] == d;
    var i :| && 0 <= i < n && e.id == members[i].id
             && (if HasDefault(members)
                 then members[i].isDefault && forall j :: 0 <= j < i ==> !members[j].isDefault
                 else i == 0);
    if HasDefault(members) {
      assert all[i].isDefault;
      assert forall j :: 0 <= j < i ==> !all[j].isDefault;
    } else if d.isDefault {
      assert all[n].isDefault;
      assert forall j :: 0 <= j < n ==> !all[j].isDefault;
    } else {
      assert !HasDefault(all);
      assert all[0] == members[0];
    }
  }

  /** The entries are the groups, one each, in the order their keys are first seen. */
  ghost predicate IsGrouping(out: seq<Device>, devices: seq<Device>, phase: Phase) {
    && |out| == |Keys(devices, phase)|
    && (forall j :: 0 <= j < |out| ==> KeyOf(out[j], phase) == Keys(devices, phase)[j])
    && (forall j :: 0 <= j < |out| ==> StandsFor(out[j], Members(devices, phase, KeyOf(out[j], phase))))
  }

  lemma {:induction false} KeysAreDistinct(devices: seq<Device>, phase: Phase)
    ensures var keys := Keys(devices, phase);
            && (forall i, j :: 0 <= i < j < |keys| ==> keys[i] != keys[j])
            && (forall k :: k in keys <==> Members(devices, phase, k) != [])
  {
    if devices == [] {
    } else {
      hide Keys, Members;
      var n := |devices| - 1;
      KeysAreDistinct(devices[..n], phase);
      LastKeys(devices, phase);
      forall k ensures k in Keys(devices, phase) <==> Members(devices, phase, k) != [] {
        LastMembers(devices, phase, k);
      }
    }
  }

  lemma LastMembers(devices: seq<Device>, phase: Phase, k: string)
    requires devices != []
    ensures var n := |devices| - 1;
            Members(devices, phase, k) ==
              if KeyOf(devices[n], phase) == k then Members(devices[..n], phase, k) + [devices[n]]
              else Members(devices[..n], phase, k)
  {
    assert Members(devices[..|devices| - 1], phase, k) + [] == Members(devices[..|devices| - 1], phase, k);
  }

  /** The incremental grouping with its index of positions computes the grouping that is meant. */
  lemma {:induction false} GroupIsGrouping(devices: seq<Device>, phase: Phase)
    ensures IsGrouping(Group(devices, phase), devices, phase)
  {
    hide IsGrouping, AddDevice;
    if devices == [] {
      NothingGrouped(phase);
    } else {
      GroupIsGrouping(devices[..|devices| - 1], phase);
      AddKeepsGrouping(Group(devices[..|devices| - 1], phase), devices, phase);
    }
  }

  lemma NothingGrouped(phase: Phase)
    ensures IsGrouping([], [], phase)
  {
  }

  lemma LastKeys(devices: seq<Device>, phase: Phase)
    requires devices != []
    ensures var before, key := Keys(devices[..|devices| - 1], phase), KeyOf(devices[|devices| - 1], phase);
            Keys(devices, phase) == if key in before then before else before + [key]
  {
  }

  lemma AbsorbKeepsKey(e: Device, d: Device, phase: Phase)
    requires KeyOf(e, phase) == KeyOf(d, phase)
    ensures KeyOf(Absorb(e, d), phase) == KeyOf(e, phase)
  {
  }

  lemma FoundIffKey(out: seq<Device>, devices: seq<Device>, phase: Phase, key: string)
    requires IsGrouping(out, devices, phase)
    ensures Find(out, phase, key).Some? <==> key in Keys(devices, phase)
    ensures Find(out, phase, key).None? ==> Members(devices, phase, key) == []
  {
    KeysAreDistinct(devices, phase);
    var r := Find(out, phase, key);
    if r.Some? {
      assert Keys(devices, phase)[r.value] == key;
    }
  }

  lemma AddNewGroup(out: seq<Device>, devices: seq<Device>, phase: Phase)
    requires devices != [] && IsGrouping(out, devices[..|devices| - 1], phase)
    requires Find(out, phase, KeyOf(devices[|devices| - 1], phase)) == None
    ensures IsGrouping(out + [devices[|devices| - 1]], devices, phase)
  {
    hide StandsFor, Find, Members, Keys, KeyOf;
    var n := |devices| - 1;
    var key := KeyOf(devices[n], phase);
    FoundIffKey(out, devices[..n], phase, key);
    LastKeys(devices, phase);
    forall j | 0 <= j < |out| ensures StandsFor(out[j], Members(devices, phase, KeyOf(out[j], phase))) {
      LastMembers(devices, phase, KeyOf(out[j], phase));
    }
    LastMembers(devices, phase, key);
    assert [] + [devices[n]] == [devices[n]];
    StandsForOne(devices[n]);
  }

  lemma AddToGroup(out: seq<Device>, devices: seq<Device>, phase: Phase, i: nat)
    requires devices != [] && IsGrouping(out, devices[..|devices| - 1], phase)
    requires Find(out, phase, KeyOf(devices[|devices| - 1], phase)) == Some(i)
    ensures IsGrouping(out[i := Absorb(out[i], devices[|devices| - 1])], devices, phase)
  {
    hide StandsFor, Find, Members, Keys, KeyOf, Absorb;
    var n := |devices| - 1;
    var before, d := devices[..n], devices[n];
    var key := KeyOf(d, phase);
    FoundIffKey(out, before, phase, key);
    LastKeys(devices, phase);
    FoundHere(out, phase, key, i);
    AbsorbKeepsKey(out[i], d, phase);
    LastMembers(devices, phase, key);
    StandsForMore(out[i], Members(before, phase, key), d);
    KeysAreDistinct(before, phase);
    forall j | 0 <= j < |out| && j != i ensures StandsFor(out[j], Members(devices, phase, KeyOf(out[j], phase))) {
      LastMembers(devices, phase, KeyOf(out[j], phase));
    }
  }

  lemma FoundHere(out: seq<Device>, phase: Phase, key: string, i: nat)
    requires Find(out, phase, key) == Some(i)
    ensures i < |out| && KeyOf(out[i], phase) == key
  {
  }

  lemma AddKeepsGrouping(out: seq<Device>, devices: seq<Device>, phase: Phase)
    requires devices != [] && IsGrouping(out, devices[..|devices| - 1], phase)
    ensures IsGrouping(AddDevice(out, phase, devices[|devices| - 1]), devices, phase)
  {
    hide IsGrouping, Find, KeyOf;
    match Find(out, phase, KeyOf(devices[|devices| - 1], phase))
    case None => AddNewGroup(out, devices, phase);
    case Some(i) => AddToGroup(out, devices, phase, i);
  }

  // ----- What the user sees -----

  predicate DistinctKeys(devices: seq<Device>, phase: Phase) {
    forall i, j :: 0 <= i < j < |devices| ==> KeyOf(devices[i], phase) != KeyOf(devices[j], phase)
  }

  lemma GroupHasDistinctKeys(devices: seq<Device>, phase: Phase)
    ensures DistinctKeys(Group(devices, phase), phase)
  {
    hide StandsFor, Group;
    GroupIsGrouping(devices, phase);
    KeysAreDistinct(devices, phase);
  }

  lemma {:induction false} MembersAreDevices(devices: seq<Device>, phase: Phase, key: string, m: Device)
    requires m in Members(devices, phase, key)
    ensures m in devices && KeyOf(m, phase) == key
  {
    var n := |devices| - 1;
    if m in Members(devices[..n], phase, key) {
      MembersAreDevices(devices[..n], phase, key, m);
    }
  }

  /** Every entry has the id of some device of its group. */
  lemma EntryIdFromGroup(devices: seq<Device>, phase: Phase, j: nat) returns (m: Device)
    requires j < |Group(devices, phase)|
    ensures m in devices && m.id == Group(devices, phase)[j].id
    ensures KeyOf(m, phase) == KeyOf(Group(devices, phase)[j], phase)
  {
    hide Group;
    GroupIsGrouping(devices, phase);
    var e := Group(devices, phase)[j];
    var members := Members(devices, phase, KeyOf(e, phase));
    assert StandsFor(e, members);
    var i :| 0 <= i < |members| && e.id == members[i].id;
    m := members[i];
    MembersAreDevices(devices, phase, KeyOf(e, phase), m);
  }

  lemma NamesKeepIdsDistinct(devices: seq<Device>)
    requires DistinctKeys(devices, ById)
    ensures DistinctKeys(Group(devices, ByName), ById)
  {
    hide Group;
    GroupHasDistinctKeys(devices, ByName);
    var out := Group(devices, ByName);
    forall i, j | 0 <= i < j < |out| ensures out[i].id != out[j].id {
      var m := EntryIdFromGroup(devices, ByName, i);
      var k := EntryIdFromGroup(devices, ByName, j);
      assert KeyOf(m, ByName) != KeyOf(k, ByName);
      var a :| 0 <= a < |devices| && devices[a] == m;
      var b :| 0 <= b < |devices| && devices[b] == k;
      assert KeyOf(devices[a], ById) != KeyOf(devices[b], ById);
    }
  }

  lemma {:induction false} TotalConcat(a: seq<Device>, b: seq<Device>)
    ensures Total(a + b) == Total(a) + Total(b)
  {
    if b == [] {
      assert a + b == a;
    } else {
      var n := |b| - 1;
      TotalConcat(a, b[..n]);
      assert (a + b)[..|a| + n] == a + b[..n];
    }
  }

  lemma TotalUpdate(out: seq<Device>, i: nat, e: Device)
    requires i < |out|
    ensures Total(out[i := e]) == Total(out) - out[i].groupedCount + e.groupedCount
  {
    assert out == out[..i] + [out[i]] + out[i + 1..];
    assert out[i := e] == out[..i] + [e] + out[i + 1..];
    TotalConcat(out[..i] + [out[i]], out[i + 1..]);
    TotalConcat(out[..i] + [e], out[i + 1..]);
    TotalConcat(out[..i], [out[i]]);
    TotalConcat(out[..i], [e]);
    StandsForOne(out[i]);
    StandsForOne(e);
  }

  lemma {:induction false} GroupKeepsTotal(devices: seq<Device>, phase: Phase)
    ensures Total(Group(devices, phase)) == Total(devices)
  {
    hide Find, KeyOf;
    if devices == [] {
    } else {
      var n := |devices| - 1;
      GroupKeepsTotal(devices[..n], phase);
      var out := Group(devices[..n], phase);
      match Find(out, phase, KeyOf(devices[n], phase))
      case None =>
        TotalConcat(out, [devices[n]]);
        StandsForOne(devices[n]);
      case Some(i) =>
        FoundHere(out, phase, KeyOf(devices[n], phase), i);
        TotalUpdate(out, i, Absorb(out[i], devices[n]));
    }
  }

  lemma {:induction false} GroupKeepsDefault(devices: seq<Device>, phase: Phase)
    ensures HasDefault(Group(devices, phase)) <==> HasDefault(devices)
  {
    hide Find, KeyOf;
    if devices == [] {
    } else {
      var n := |devices| - 1;
      var before, d := devices[..n], devices[n];
      GroupKeepsDefault(before, phase);
      var out := Group(before, phase);
      assert devices == before + [d];
      DefaultAppend(before, d);
      match Find(out, phase, KeyOf(d, phase))
      case None => DefaultAppend(out, d);
      case Some(i) =>
        FoundHere(out, phase, KeyOf(d, phase), i);
        DefaultAbsorb(out, i, d);
    }
  }

  lemma DefaultAppend(a: seq<Device>, d: Device)
    ensures HasDefault(a + [d]) <==> HasDefault(a) || d.isDefault
  {
    assert (a + [d])[|a|] == d;
    assert forall i :: 0 <= i < |a| ==> (a + [d])[i] == a[i];
  }

  lemma DefaultAbsorb(out: seq<Device>, i: nat, d: Device)
    requires i < |out|
    ensures HasDefault(out[i := Absorb(out[i], d)]) <==> HasDefault(out) || d.isDefault
  {
    var out' := out[i := Absorb(out[i], d)];
    assert out'[i].isDefault <==> out[i].isDefault || d.isDefault;
    assert forall j :: 0 <= j < |out| && j != i ==> out'[j] == out[j];
    if HasDefault(out) {
      var j :| 0 <= j < |out| && out[j].isDefault;
      assert out'[j].isDefault;
    }
  }

  lemma {:induction false} GroupOfDistinct(devices: seq<Device>, phase: Phase)
    requires DistinctKeys(devices, phase)
    ensures Group(devices, phase) == devices
  {
    if devices == [] {
    } else {
      var n := |devices| - 1;
      GroupOfDistinct(devices[..n], phase);
      var r := Find(devices[..n], phase, KeyOf(devices[n], phase));
      assert r == None by {
        assert forall i :: 0 <= i < n ==> KeyOf(devices[..n][i], phase) != KeyOf(devices[n], phase);
      }
    }
  }

  lemma {:induction false} SelectFromBoth(a: seq<Device>, b: seq<Device>, wanted: bool)
    ensures Select(a + b, wanted) == Select(a, wanted) + Select(b, wanted)
  {
    hide IsSystemDefault, Select;
    if b == [] {
      SelectNone(wanted);
      assert a + b == a && Select(a, wanted) + [] == Select(a, wanted);
    } else {
      var n := |b| - 1;
      SelectFromBoth(a, b[..n], wanted);
      assert (a + b)[..|a| + n] == a + b[..n] && (a + b)[|a| + n] == b[n];
      SelectLast(a + b, wanted);
      SelectLast(b, wanted);
      Regroup(Select(a, wanted), Select(b[..n], wanted), if IsSystemDefault(b[n]) == wanted then [b[n]] else []);
    }
  }

  lemma SelectNone(wanted: bool)
    ensures Select([], wanted) == []
  {
  }

  lemma SelectLast(devices: seq<Device>, wanted: bool)
    requires devices != []
    ensures var n := |devices| - 1;
            Select(devices, wanted) ==
              Select(devices[..n], wanted) + if IsSystemDefault(devices[n]) == wanted then [devices[n]] else []
  {
  }

  lemma Regroup(a: seq<Device>, b: seq<Device>, c: seq<Device>)
    ensures a + (b + c) == a + b + c
  {
  }

  lemma {:induction false} SelectUniform(a: seq<Device>, kind: bool, wanted: bool)
    requires forall d :: d in a ==> IsSystemDefault(d) == kind
    ensures Select(a, wanted) == if kind == wanted then a else []
  {
    if a == [] {
    } else {
      SelectUniform(a[..|a| - 1], kind, wanted);
      assert a == a[..|a| - 1] + [a[|a| - 1]];
    }
  }

  lemma {:induction false} SelectedAre(devices: seq<Device>, wanted: bool)
    ensures forall d :: d in Select(devices, wanted) ==> IsSystemDefault(d) == wanted
  {
    if devices == [] {
    } else {
      SelectedAre(devices[..|devices| - 1], wanted);
    }
  }

  lemma GroupsStayConcrete(devices: seq<Device>, phase: Phase)
    requires forall d :: d in devices ==> !IsSystemDefault(d)
    ensures forall d :: d in Group(devices, phase) ==> !IsSystemDefault(d)
  {
    hide Group;
    forall d | d in Group(devices, phase) ensures !IsSystemDefault(d) {
      var j :| 0 <= j < |Group(devices, phase)| && Group(devices, phase)[j] == d;
      var m := EntryIdFromGroup(devices, phase, j);
      assert IsSystemDefault(m) <==> IsSystemDefault(d);
    }
  }

  function Concrete(devices: seq<Device>): seq<Device> {
    Group(Group(Select(devices, false), ById), ByName)
  }

  lemma ResultParts(devices: seq<Device>)
    ensures Select(Deduplicate(devices), true) == Select(devices, true)
    ensures Select(Deduplicate(devices), false) == Concrete(devices)
  {
    hide Group;
    var system, concrete := Select(devices, true), Concrete(devices);
    SelectedAre(devices, true);
    SelectedAre(devices, false);
    GroupsStayConcrete(Select(devices, false), ById);
    GroupsStayConcrete(Group(Select(devices, false), ById), ByName);
    SelectFromBoth(system, concrete, true);
    SelectFromBoth(system, concrete, false);
    SelectUniform(system, true, true);
    SelectUniform(system, true, false);
    SelectUniform(concrete, false, true);
    SelectUniform(concrete, false, false);
    assert system + [] == system && [] + concrete == concrete;
  }

  lemma {:induction false} SelectSplitsTotal(devices: seq<Device>)
    ensures Total(Select(devices, true)) + Total(Select(devices, false)) == Total(devices)
  {
    if devices == [] {
    } else {
      var n := |devices| - 1;
      SelectSplitsTotal(devices[..n]);
      TotalConcat(Select(devices[..n], IsSystemDefault(devices[n])), [devices[n]]);
      StandsForOne(devices[n]);
      var others := Select(devices[..n], !IsSystemDefault(devices[n]));
      assert others + [] == others;
    }
  }

  /** No entry is lost from the counts, system defaults pass through in front, no two concrete
      devices share an id or a name, and there is a default device if and only if there was. */
  lemma DeduplicateKeeps(devices: seq<Device>)
    ensures var result := Deduplicate(devices);
            && Total(result) == Total(devices)
            && Select(result, true) == Select(devices, true) <= result
            && DistinctKeys(Select(result, false), ById)
            && DistinctKeys(Select(result, false), ByName)
            && (HasDefault(Select(result, false)) <==> HasDefault(Select(devices, false)))
  {
    hide Group, DistinctKeys, HasDefault;
    var concrete := Select(devices, false);
    var unique := Group(concrete, ById);
    ResultParts(devices);
    SelectSplitsTotal(devices);
    TotalConcat(Select(devices, true), Concrete(devices));
    GroupKeepsTotal(concrete, ById);
    GroupKeepsTotal(unique, ByName);
    GroupHasDistinctKeys(concrete, ById);
    NamesKeepIdsDistinct(unique);
    GroupHasDistinctKeys(unique, ByName);
    GroupKeepsDefault(concrete, ById);
    GroupKeepsDefault(unique, ByName);
  }

  /** The devices whose id has not been seen before. */
  function FirstOfEachId(devices: seq<Device>): seq<Device> {
    if devices == [] then []
    else
      var n := |devices| - 1;
      FirstOfEachId(devices[..n]) + if devices[n].id in Keys(devices[..n], ById) then [] else [devices[n]]
  }

  ghost predicate SameKeys(a: seq<Device>, b: seq<Device>, phase: Phase) {
    |a| == |b| && forall j :: 0 <= j < |a| ==> KeyOf(a[j], phase) == KeyOf(b[j], phase)
  }

  lemma {:induction false} SameKeysSeen(a: seq<Device>, b: seq<Device>, phase: Phase)
    requires SameKeys(a, b, phase)
    ensures Keys(a, phase) == Keys(b, phase)
  {
    if a == [] {
      assert b == [];
    } else {
      SameKeysSeen(a[..|a| - 1], b[..|b| - 1], phase);
    }
  }

  lemma {:induction false} GroupKeepsFirstNames(devices: seq<Device>)
    ensures SameKeys(Group(devices, ById), FirstOfEachId(devices), ByName)
  {
    hide Find, Keys;
    if devices == [] {
      assert Group(devices, ById) == [];
    } else {
      var n := |devices| - 1;
      GroupKeepsFirstNames(devices[..n]);
      GroupIsGrouping(devices[..n], ById);
      FoundIffKey(Group(devices[..n], ById), devices[..n], ById, devices[n].id);
      match Find(Group(devices[..n], ById), ById, devices[n].id)
      case None =>
      case Some(i) => FoundHere(Group(devices[..n], ById), ById, devices[n].id, i);
    }
  }

  /** The concrete entries of the final list come in the order in which their names are first
      seen, going by the first device of each id. */
  lemma FirstSeenOrder(devices: seq<Device>)
    ensures var entries := Select(Deduplicate(devices), false);
            var names := Keys(FirstOfEachId(Select(devices, false)), ByName);
            |entries| == |names| && forall j :: 0 <= j < |entries| ==> entries[j].name == names[j]
  {
    hide Group, Keys, Deduplicate, Select, StandsFor;
    var concrete := Select(devices, false);
    ResultParts(devices);
    GroupKeepsFirstNames(concrete);
    SameKeysSeen(Group(concrete, ById), FirstOfEachId(concrete), ByName);
    GroupIsGrouping(Group(concrete, ById), ByName);
    var entries, names := Concrete(devices), Keys(FirstOfEachId(concrete), ByName);
    forall j | 0 <= j < |entries| ensures entries[j].name == names[j] {
      assert KeyOf(entries[j], ByName) == names[j];
    }
  }

  /** Deduplicating twice is deduplicating once. */
  lemma DeduplicateIsIdempotent(devices: seq<Device>)
    ensures Deduplicate(Deduplicate(devices)) == Deduplicate(devices)
  {
    hide Group, Select, DistinctKeys;
    ResultParts(devices);
    DeduplicateKeeps(devices);
    GroupOfDistinct(Concrete(devices), ById);
    GroupOfDistinct(Concrete(devices), ByName);
  }

  /** The two system aliases pass through as they are, as often as they were there, and nothing else
      takes their ids. */
  lemma AliasesPassThrough(devices: seq<Device>, d: Device)
    requires d.id == "default-input" || d.id == "default-output"
    ensures multiset(Deduplicate(devices))[d] == multiset(devices)[d]
  {
    hide Group, Select;
    var system, concrete := Select(devices, true), Concrete(devices);
    SelectCounts(devices, d);
    SelectedAre(devices, false);
    GroupsStayConcrete(Select(devices, false), ById);
    GroupsStayConcrete(Group(Select(devices, false), ById), ByName);
    assert d !in concrete;
    assert multiset(system + concrete)[d] == multiset(system)[d] + multiset(concrete)[d];
  }

  lemma {:induction false} SelectCounts(devices: seq<Device>, d: Device)
    requires IsSystemDefault(d)
    ensures multiset(Select(devices, true))[d] == multiset(devices)[d]
  {
    if devices == [] {
    } else {
      var n := |devices| - 1;
      SelectCounts(devices[..n], d);
      assert devices == devices[..n] + [devices[n]];
    }
  }
}
