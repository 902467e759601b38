/**
  The connection of input event buffers and hot-plugged devices in
  src/idirectfb.c: which buffers are attached to which devices, over all runs of
  creating, destroying, plugging and unplugging.
 */
module Hotplug {

  /** `since` is the model's clock: when the buffer was created or the device plugged in. */
  datatype Container = Container(iface: nat, caps: set<nat>, since: nat)
  datatype Device = Device(id: nat, caps: set<nat>, since: nat)

  /** DICAPS_ALL: keys, axes and buttons, as numbers of bits. */
  const ALL_CAPS: set<nat> := {0, 1, 2}

  /** dev_caps & caps */
  predicate Shares(dev: set<nat>, caps: set<nat>) {
    dev * caps != {}
  }

  /** Enumeration takes a device without capabilities for one that has them all. */
  predicate Enumerates(dev: set<nat>, caps: set<nat>) {
    Shares(if dev == {} then ALL_CAPS else dev, caps)
  }

  /** What the code attaches: enumeration for devices that were there first, plain sharing for later ones. */
  predicate Linked(c: Container, d: Device) {
    if d.since < c.since then Enumerates(d.caps, c.caps) else Shares(d.caps, c.caps)
  }

  predicate LinkedTo(c: Container, devices: seq<Device>, id: nat) {
    exists k :: 0 <= k < |devices| && devices[k].id == id && Linked(c, devices[k])
  }

  function Count(ids: seq<nat>, id: nat): nat {
    multiset(ids)[id]
  }

  /** Removes the first entry of a device, if there is one. */
  function Without(ids: seq<nat>, id: nat): seq<nat> {
    if ids == [] then [] else if ids[0] == id then ids[1..] else [ids[0]] + Without(ids[1..], id)
  }

  lemma {:induction false} WithoutCounts(ids: seq<nat>, id: nat, other: nat)
    ensures Count(Without(ids, id), other) ==
      if other == id && Count(ids, id) > 0 then Count(ids, id) - 1 else Count(ids, other)
  {
    if ids != [] {
      assert ids == [ids[0]] + ids[1..];
      WithoutCounts(ids[1..], id, other);
    }
  }

  lemma ConsCounts(id: nat, ids: seq<nat>, other: nat)
    ensures Count([id] + ids, other) == Count(ids, other) + if other == id then 1 else 0
  {
  }

  /** The buffer is attached once to every device it is linked to, and to no other. */
  ghost predicate AttachedOnce(c: Container, devices: seq<Device>, ids: seq<nat>) {
    forall id: nat :: Count(ids, id) == if LinkedTo(c, devices, id) then 1 else 0
  }

  ghost predicate DistinctDevices(devices: seq<Device>) {
    forall j, k :: 0 <= j < k < |devices| ==> devices[j].id != devices[k].id
  }

  ghost predicate DistinctBuffers(containers: seq<Container>) {
    forall j, k :: 0 <= j < k < |containers| ==> containers[j].iface != containers[k].iface
  }

  // ---- What the documentation promises ----

  /** Every buffer is attached once to every present device that enumeration would match, and to no other. */
  ghost predicate Promise(containers: seq<Container>, devices: seq<Device>, attached: map<nat, seq<nat>>)
    requires forall j :: 0 <= j < |containers| ==> containers[j].iface in attached
  {
    forall j, k :: 0 <= j < |containers| && 0 <= k < |devices| ==>
      Count(attached[containers[j].iface], devices[k].id) ==
        if Enumerates(devices[k].caps, containers[j].caps) then 1 else 0
  }

  /** A device without capabilities came after a buffer that wants keys, axes or buttons. */
  ghost predicate LateUnclassified(containers: seq<Container>, devices: seq<Device>) {
    exists j, k :: 0 <= j < |containers| && 0 <= k < |devices| &&
      devices[k].caps == {} && Shares(ALL_CAPS, containers[j].caps) && containers[j].since <= devices[k].since
  }

  lemma LinkedOnlyToItself(c: Container, devices: seq<Device>, k: nat)
    requires DistinctDevices(devices) && k < |devices|
    ensures LinkedTo(c, devices, devices[k].id) <==> Linked(c, devices[k])
  {
  }

  /** The promise is kept in exactly the states without a late device that has no capabilities. */
  lemma PromiseExactly(containers: seq<Container>, devices: seq<Device>, attached: map<nat, seq<nat>>)
    requires DistinctDevices(devices)
    requires forall j :: 0 <= j < |containers| ==>
      containers[j].iface in attached && AttachedOnce(containers[j], devices, attached[containers[j].iface])
    ensures Promise(containers, devices, attached) <==> !LateUnclassified(containers, devices)
  {
    hide Count;
    forall j, k | 0 <= j < |containers| && 0 <= k < |devices|
      ensures Count(attached[containers[j].iface], devices[k].id) == if Linked(containers[j], devices[k]) then 1 else 0
    {
      LinkedOnlyToItself(containers[j], devices, k);
    }
    if LateUnclassified(containers, devices) {
      var j, k :| 0 <= j < |containers| && 0 <= k < |devices| &&
        devices[k].caps == {} && Shares(ALL_CAPS, containers[j].caps) && containers[j].since <= devices[k].since;
      assert !Linked(containers[j], devices[k]) && Enumerates(devices[k].caps, containers[j].caps);
    }
  }

  lemma LinkWrittenOut(c: Container, d: Device)
    ensures Linked(c, d) <==> !((if d.caps == {} && d.since < c.since then {0, 1, 2} else d.caps) !! c.caps)
  {
    var caps := if d.caps == {} && d.since < c.since then {0, 1, 2} else d.caps;
    if caps !! c.caps {
      assert caps * c.caps == {};
    } else {
      var cap :| cap in caps && cap in c.caps;
      assert cap in caps * c.caps;
    }
  }

  /** The attachments in plain terms: an early device without capabilities counts as one with keys, axes and buttons. */
  lemma AttachmentsWrittenOut(containers: seq<Container>, devices: seq<Device>, attached: map<nat, seq<nat>>)
    requires DistinctDevices(devices)
    requires forall j :: 0 <= j < |containers| ==>
      containers[j].iface in attached && AttachedOnce(containers[j], devices, attached[containers[j].iface])
    ensures forall j, k :: 0 <= j < |containers| && 0 <= k < |devices| ==>
      var early := devices[k].caps == {} && devices[k].since < containers[j].since;
      var caps := if early then {0, 1, 2} else devices[k].caps;
      multiset(attached[containers[j].iface])[devices[k].id] == if caps !! containers[j].caps then 0 else 1
    ensures forall j, id :: 0 <= j < |containers| && (forall k :: 0 <= k < |devices| ==> devices[k].id != id) ==>
      id !in attached[containers[j].iface]
  {
    forall j, k | 0 <= j < |containers| && 0 <= k < |devices|
      ensures
        var early := devices[k].caps == {} && devices[k].since < containers[j].since;
        var caps := if early then {0, 1, 2} else devices[k].caps;
        multiset(attached[containers[j].iface])[devices[k].id] == if caps !! containers[j].caps then 0 else 1
    {
      LinkedOnlyToItself(containers[j], devices, k);
      LinkWrittenOut(containers[j], devices[k]);
      assert Count(attached[containers[j].iface], devices[k].id) == if Linked(containers[j], devices[k]) then 1 else 0;
      hide Linked;
    }
    forall j, id | 0 <= j < |containers| && (forall k :: 0 <= k < |devices| ==> devices[k].id != id)
      ensures id !in attached[containers[j].iface]
    {
      assert Count(attached[containers[j].iface], id) == 0;
    }
  }

  class InputHub {
    var containers: seq<Container>     // the list of event buffers created with capabilities
    var devices: seq<Device>           // the local list of devices
    var attached: map<nat, seq<nat>>   // per buffer, the devices it listens to, latest first
    var clock: nat

    constructor ()
      ensures Valid() && containers == [] && devices == []
    {
      containers, devices, attached, clock := [], [], map[], 0;
    }

    ghost predicate Valid()
      reads this
    {
      && DistinctDevices(devices) && DistinctBuffers(containers)
      && (forall k :: 0 <= k < |devices| ==> devices[k].since < clock)
      && (forall j :: 0 <= j < |containers| ==> containers[j].since < clock && containers[j].iface < clock)
      && (forall i :: i in attached ==> i < clock)
      && forall j :: 0 <= j < |containers| ==>
           containers[j].iface in attached && AttachedOnce(containers[j], devices, attached[containers[j].iface])
    }

    /** While the buffers are told of a change: the first j of them know the new list of devices. */
    ghost predicate Rewired(j: nat, before: seq<Device>)
      reads this
    {
      && (forall i :: i in attached ==> i < clock)
      && forall i :: 0 <= i < |containers| ==>
           containers[i].iface in attached &&
           AttachedOnce(containers[i], if i < j then devices else before, attached[containers[i].iface])
    }

    predicate Present(id: nat)
      reads this
    {
      exists k :: 0 <= k < |devices| && devices[k].id == id
    }

    /** CreateInputEventBuffer: registers the buffer, then attaches every device enumeration gives. */
    method CreateBuffer(caps: set<nat>) returns (iface: nat)
      requires Valid()
      modifies this
      ensures Valid() && devices == old(devices)
      ensures containers == old(containers) + [Container(iface, caps, iface)] && iface == old(clock)
    {
      iface := clock;
      var c := Container(iface, caps, iface);
      containers := containers + [c];
      attached := attached[iface := []];
      clock := clock + 1;
      ghost var others := attached;
      for k := 0 to |devices|
        invariant iface in attached && AttachedOnce(c, devices[..k], attached[iface])
        invariant attached == others[iface := attached[iface]]
        modifies this`attached
      {
        hide Count;
        if Enumerates(devices[k].caps, caps) {
          AttachNext(c, devices, k, attached[iface]);
          attached := attached[iface := [devices[k].id] + attached[iface]];
        } else {
          SkipNext(c, devices, k);
        }
      }
      assert devices[..|devices|] == devices;
    }

    /** containers_remove_input_eventbuffer, when a buffer is destroyed. */
    method RemoveBuffer(iface: nat)
      requires Valid()
      modifies this
      ensures Valid() && devices == old(devices)
      ensures forall c :: c in containers <==> c in old(containers) && c.iface != iface
    {
      var kept: seq<Container> := [];
      for j := 0 to |containers|
        invariant forall c :: c in kept <==> c in containers[..j] && c.iface != iface
        invariant DistinctBuffers(kept)
      {
        if containers[j].iface != iface {
          kept := kept + [containers[j]];
        }
      }
      assert containers[..|containers|] == containers;
      containers := kept;
      attached := attached - {iface};
    }

    /** containers_attach_device */
    method AttachDevice(d: Device, ghost before: seq<Device>)
      requires devices == before + [d] && DistinctDevices(devices) && DistinctBuffers(containers)
      requires Rewired(0, before) && forall j :: 0 <= j < |containers| ==> containers[j].since <= d.since
      modifies this`attached
      ensures Rewired(|containers|, before)
    {
      hide AttachedOnce, Count;
      for j := 0 to |containers|
        invariant Rewired(j, before)
        modifies this`attached
      {
        var c := containers[j];
        if Shares(d.caps, c.caps) {
          AttachLast(c, before, d, attached[c.iface]);
          attached := attached[c.iface := [d.id] + attached[c.iface]];
        } else {
          SkipLast(c, before, d, attached[c.iface]);
        }
      }
    }

    /** containers_detach_device */
    method DetachDevice(id: nat, ghost before: seq<Device>, ghost k: nat)
      requires k < |before| && before[k].id == id && devices == before[..k] + before[k + 1..]
      requires DistinctDevices(before) && DistinctBuffers(containers) && Rewired(0, before)
      modifies this`attached
      ensures Rewired(|containers|, before)
    {
      hide AttachedOnce, Count;
      for j := 0 to |containers|
        invariant Rewired(j, before)
        modifies this`attached
      {
        var c := containers[j];
        DetachOne(c, before, k, attached[c.iface]);
        attached := attached[c.iface := Without(attached[c.iface], id)];
      }
    }

    /** A device is plugged in: it joins the list and every buffer that shares a capability is attached. */
    method PlugIn(id: nat, caps: set<nat>)
      requires Valid() && !Present(id)
      modifies this
      ensures Valid() && containers == old(containers) && devices == old(devices) + [Device(id, caps, old(clock))]
    {
      hide AttachedOnce, Count;
      var d := Device(id, caps, clock);
      ghost var before := devices;
      devices := devices + [d];
      clock := clock + 1;
      AttachDevice(d, before);
    }

    /** A device is unplugged: it leaves the list and every buffer is told to detach it. */
    method Unplug(id: nat)
      requires Valid()
      modifies this
      ensures Valid() && containers == old(containers) && !Present(id)
      ensures forall d :: d in devices <==> d in old(devices) && d.id != id
    {
      hide AttachedOnce, Count;
      var k := Find(id);
      if k == |devices| {
        return;
      }
      ghost var before := devices;
      devices := devices[..k] + devices[k + 1..];
      OthersStay(before, k);
      DetachDevice(id, before, k);
    }

    method Find(id: nat) returns (k: nat)
      ensures k <= |devices| && (k < |devices| ==> devices[k].id == id)
      ensures k == |devices| ==> !Present(id)
    {
      k := 0;
      while k < |devices| && devices[k].id != id
        invariant k <= |devices| && forall i :: 0 <= i < k ==> devices[i].id != id
      {
        k := k + 1;
      }
    }
  }

  datatype Event = Creates(caps: set<nat>) | Destroys(iface: nat) | Plugs(id: nat, caps: set<nat>) | Unplugs(id: nat)

  /** Any run of creating, destroying, plugging and unplugging; a device that is present is not plugged again. */
  method Run(events: seq<Event>)
    returns (containers: seq<Container>, devices: seq<Device>, attached: map<nat, seq<nat>>)
    ensures forall j :: 0 <= j < |containers| ==>
      containers[j].iface in attached && AttachedOnce(containers[j], devices, attached[containers[j].iface])
    ensures forall j, k :: 0 <= j < |containers| && 0 <= k < |devices| ==>
      var early := devices[k].caps == {} && devices[k].since < containers[j].since;
      var caps := if early then {0, 1, 2} else devices[k].caps;
      multiset(attached[containers[j].iface])[devices[k].id] == if caps !! containers[j].caps then 0 else 1
    ensures forall j, id :: 0 <= j < |containers| && (forall k :: 0 <= k < |devices| ==> devices[k].id != id) ==>
      id !in attached[containers[j].iface]
    ensures Promise(containers, devices, attached) <==> !LateUnclassified(containers, devices)
  {
    var hub := new InputHub();
    for i := 0 to |events|
      invariant hub.Valid() && fresh(hub)
    {
      match events[i] {
        case Creates(caps) =>
          var _ := hub.CreateBuffer(caps);
        case Destroys(iface) => hub.RemoveBuffer(iface);
        case Plugs(id, caps) =>
          if !hub.Present(id) {
            hub.PlugIn(id, caps);
          }
        case Unplugs(id) => hub.Unplug(id);
      }
    }
    containers, devices, attached := hub.containers, hub.devices, hub.attached;
    AttachmentsWrittenOut(containers, devices, attached);
    PromiseExactly(containers, devices, attached);
  }

  /** A buffer for keys and, after it, a device without capabilities: they are not connected. */
  method LateDevice() returns (containers: seq<Container>, devices: seq<Device>, attached: map<nat, seq<nat>>)
    ensures forall j :: 0 <= j < |containers| ==> containers[j].iface in attached
    ensures LateUnclassified(containers, devices) && !Promise(containers, devices, attached)
  {
    hide AttachedOnce, Count;
    var hub := new InputHub();
    var iface := hub.CreateBuffer({0});
    hub.PlugIn(5, {});
    assert 0 in ALL_CAPS * hub.containers[0].caps;
    containers, devices, attached := hub.containers, hub.devices, hub.attached;
    assert devices[0].caps == {} && containers[0].since <= devices[0].since;
    PromiseExactly(containers, devices, attached);
  }

  lemma OthersStay(devices: seq<Device>, k: nat)
    requires k < |devices| && DistinctDevices(devices)
    ensures forall d :: d in devices[..k] + devices[k + 1..] <==> d in devices && d.id != devices[k].id
    ensures DistinctDevices(devices[..k] + devices[k + 1..])
  {
    var rest := devices[..k] + devices[k + 1..];
    assert forall i :: 0 <= i < |rest| ==> rest[i] == devices[if i < k then i else i + 1];
    forall d | d in devices && d.id != devices[k].id ensures d in rest {
      var i :| 0 <= i < |devices| && devices[i] == d;
      assert rest[if i < k then i else i - 1] == d;
    }
  }

  lemma AttachLast(c: Container, devices: seq<Device>, d: Device, ids: seq<nat>)
    requires DistinctDevices(devices + [d]) && Linked(c, d) && AttachedOnce(c, devices, ids)
    ensures AttachedOnce(c, devices + [d], [d.id] + ids)
  {
    assert (devices + [d])[..|devices|] == devices && (devices + [d])[..|devices| + 1] == devices + [d];
    AttachNext(c, devices + [d], |devices|, ids);
  }

  lemma SkipLast(c: Container, devices: seq<Device>, d: Device, ids: seq<nat>)
    requires !Linked(c, d) && AttachedOnce(c, devices, ids)
    ensures AttachedOnce(c, devices + [d], ids)
  {
    assert (devices + [d])[..|devices|] == devices && (devices + [d])[..|devices| + 1] == devices + [d];
    SkipNext(c, devices + [d], |devices|);
  }

  lemma LinkedToNext(c: Container, devices: seq<Device>, k: nat, id: nat)
    requires k < |devices|
    ensures LinkedTo(c, devices[..k + 1], id) <==>
      LinkedTo(c, devices[..k], id) || (devices[k].id == id && Linked(c, devices[k]))
  {
    if LinkedTo(c, devices[..k], id) {
      var i :| 0 <= i < k && devices[..k][i].id == id && Linked(c, devices[..k][i]);
      assert devices[..k + 1][i] == devices[i];
    }
    if devices[k].id == id && Linked(c, devices[k]) {
      assert devices[..k + 1][k] == devices[k];
    }
  }

  lemma AttachNext(c: Container, devices: seq<Device>, k: nat, ids: seq<nat>)
    requires DistinctDevices(devices) && k < |devices| && Linked(c, devices[k])
    requires AttachedOnce(c, devices[..k], ids)
    ensures AttachedOnce(c, devices[..k + 1], [devices[k].id] + ids)
  {
    hide Count;
    forall id: nat ensures Count([devices[k].id] + ids, id) == if LinkedTo(c, devices[..k + 1], id) then 1 else 0 {
      ConsCounts(devices[k].id, ids, id);
      LinkedToNext(c, devices, k, id);
    }
  }

  lemma SkipNext(c: Container, devices: seq<Device>, k: nat)
    requires k < |devices| && !Linked(c, devices[k])
    ensures forall ids :: AttachedOnce(c, devices[..k], ids) ==> AttachedOnce(c, devices[..k + 1], ids)
  {
    hide Count;
    forall id: nat ensures LinkedTo(c, devices[..k + 1], id) <==> LinkedTo(c, devices[..k], id) {
      LinkedToNext(c, devices, k, id);
    }
  }

  lemma DetachOne(c: Container, devices: seq<Device>, k: nat, ids: seq<nat>)
    requires DistinctDevices(devices) && k < |devices| && AttachedOnce(c, devices, ids)
    ensures AttachedOnce(c, devices[..k] + devices[k + 1..], Without(ids, devices[k].id))
  {
    hide Count;
    var rest := devices[..k] + devices[k + 1..];
    forall id: nat ensures Count(Without(ids, devices[k].id), id) == if LinkedTo(c, rest, id) then 1 else 0 {
      WithoutCounts(ids, devices[k].id, id);
      LinkedToRest(c, devices, k, id);
    }
  }

  lemma LinkedToRest(c: Container, devices: seq<Device>, k: nat, id: nat)
    requires DistinctDevices(devices) && k < |devices|
    ensures LinkedTo(c, devices[..k] + devices[k + 1..], id) <==> LinkedTo(c, devices, id) && id != devices[k].id
  {
    var rest := devices[..k] + devices[k + 1..];
    if LinkedTo(c, devices, id) && id != devices[k].id {
      var i :| 0 <= i < |devices| && devices[i].id == id && Linked(c, devices[i]);
      assert devices[i] == rest[if i < k then i else i - 1];
    }
    if LinkedTo(c, rest, id) {
      var i :| 0 <= i < |rest| && rest[i].id == id && Linked(c, rest[i]);
      assert rest[i] == devices[if i < k then i else i + 1];
    }
  }
}
