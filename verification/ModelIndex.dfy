/** The index `PathParse` builds from a device model: for each id the JSON pointer to the entity with that id; and what
    it collects on the way. */
module ModelIndex {
  import opened Wrappers

  /** A config or data item of the model, as far as the index and its users look at it: of an OPC-UA data item its
      identity, if it has one, and of a sample channel the ids to be sampled. */
  datatype Entity = Entity(id: string, kind: string, hasMethods: bool, identity: Option<string>, ids: seq<string>)

  /** A device or a component. A missing list is an empty one: the walk does not tell them apart. */
  datatype Component = Component(configs: seq<Entity>, dataItems: seq<Entity>, components: seq<Component>)

  datatype Model = Model(configs: seq<Entity>, devices: seq<Component>)

  datatype Token = Name(name: string) | Index(i: nat)

  type Pointer = seq<Token>

  // ----- Following a pointer -----

  function EntityAt(es: seq<Entity>, ptr: Pointer): Option<Entity> {
    if |ptr| == 1 && ptr[0].Index? && ptr[0].i < |es| then Some(es[ptr[0].i]) else None
  }

  /** The entity a pointer leads to; None when it leads nowhere, or to something that is not an entity. */
  function ResolveIn(c: Component, ptr: Pointer): Option<Entity>
    decreases c, 1
  {
    if ptr == [] || !ptr[0].Name? then None
    else if ptr[0].name == "configs" then EntityAt(c.configs, ptr[1..])
    else if ptr[0].name == "dataItems" then EntityAt(c.dataItems, ptr[1..])
    else if ptr[0].name == "components" then ResolveUnder(c.components, ptr[1..])
    else None
  }

  function ResolveUnder(cs: seq<Component>, ptr: Pointer): Option<Entity>
    decreases cs, 0
  {
    if ptr == [] || !ptr[0].Index? || ptr[0].i >= |cs| then None else ResolveIn(cs[ptr[0].i], ptr[1..])
  }

  function Resolve(m: Model, ptr: Pointer): Option<Entity> {
    if ptr == [] || !ptr[0].Name? then None
    else if ptr[0].name == "configs" then EntityAt(m.configs, ptr[1..])
    else if ptr[0].name == "devices" then ResolveUnder(m.devices, ptr[1..])
    else None
  }

  // ----- The walk -----

  /** An entity the walk comes to: where it is, the pointer the walk has for it, and whether the walk has lost its way:
      whether there is a device or component above it with configs, and without data items. */
  datatype Visit = Visit(entity: Entity, at: Pointer, recorded: Pointer, lost: bool)

  /** A type that keeps a config out of the index, if there is one. */
  type Excluded = Option<string>

  function EntityVisits(es: seq<Entity>, name: string, excluded: Excluded, from: nat): seq<Visit>
    decreases |es| - from
  {
    if from >= |es| then []
    else
      var others := EntityVisits(es, name, excluded, from + 1);
      var at := [Name(name), Index(from)];
      if excluded == Some(es[from].kind) then others else [Visit(es[from], at, at, false)] + others
  }

  /** "configs" stays on the pointer when there are configs, and no data items before the components. */
  predicate Loses(c: Component) { c.configs != [] && c.dataItems == [] }

  const SAMPLE_CHANNEL: Excluded := Some("SAMPLE_CHANNEL")

  function Visits(c: Component): seq<Visit>
    decreases c, 1
  {
    OwnVisits(c) + VisitsUnder(c.components, "components", Loses(c), 0)
  }

  function OwnVisits(c: Component): seq<Visit> {
    EntityVisits(c.configs, "configs", SAMPLE_CHANNEL, 0) + EntityVisits(c.dataItems, "dataItems", None, 0)
  }

  function VisitsUnder(cs: seq<Component>, name: string, lost: bool, from: nat): seq<Visit>
    decreases cs, 0, |cs| - from
  {
    if from >= |cs| then []
    else Below(Visits(cs[from]), name, lost, from) + VisitsUnder(cs, name, lost, from + 1)
  }

  function Head(name: string, lost: bool): Pointer { if lost then [Name("configs"), Name(name)] else [Name(name)] }

  function BelowOne(v: Visit, name: string, lost: bool, i: nat): Visit {
    Visit(v.entity, [Name(name), Index(i)] + v.at, Head(name, lost) + [Index(i)] + v.recorded, lost || v.lost)
  }

  function Below(vs: seq<Visit>, name: string, lost: bool, i: nat): seq<Visit> {
    seq(|vs|, k requires 0 <= k < |vs| => BelowOne(vs[k], name, lost, i))
  }

  /** METHOD configs of the root are left out by the Modbus adapter, and not by the OPC-UA one. */
  function RootVisits(m: Model, excluded: Excluded): seq<Visit> {
    EntityVisits(m.configs, "configs", excluded, 0) + VisitsUnder(m.devices, "devices", false, 0)
  }

  // ----- The index of a list of visits: the first one wins -----

  function Insert(index: map<string, Pointer>, id: string, ptr: Pointer): map<string, Pointer> {
    if id in index then index else index[id := ptr]
  }

  function InsertAll(index: map<string, Pointer>, vs: seq<Visit>, base: Pointer): map<string, Pointer>
    decreases |vs|
  {
    if vs == [] then index
    else InsertAll(Insert(index, vs[0].entity.id, base + vs[0].recorded), vs[1..], base)
  }

  function BuiltIndex(m: Model, excluded: Excluded): map<string, Pointer> {
    InsertAll(map[], RootVisits(m, excluded), [])
  }

  lemma {:induction false} InsertAllAppend(index: map<string, Pointer>, a: seq<Visit>, b: seq<Visit>, base: Pointer)
    ensures InsertAll(index, a + b, base) == InsertAll(InsertAll(index, a, base), b, base)
    decreases |a|
  {
    if a == [] {
      assert a + b == b;
    } else {
      assert (a + b)[1..] == a[1..] + b;
      InsertAllAppend(Insert(index, a[0].entity.id, base + a[0].recorded), a[1..], b, base);
    }
  }

  lemma {:induction false} InsertAllBelow(index: map<string, Pointer>, vs: seq<Visit>, base: Pointer,
                                          name: string, lost: bool, i: nat)
    ensures InsertAll(index, Below(vs, name, lost, i), base)
         == InsertAll(index, vs, base + Head(name, lost) + [Index(i)])
    decreases |vs|
  {
    if vs != [] {
      assert Below(vs, name, lost, i)[1..] == Below(vs[1..], name, lost, i);
      assert base + (Head(name, lost) + [Index(i)] + vs[0].recorded)
          == base + Head(name, lost) + [Index(i)] + vs[0].recorded;
      InsertAllBelow(Insert(index, vs[0].entity.id, base + Head(name, lost) + [Index(i)] + vs[0].recorded),
                     vs[1..], base, name, lost, i);
    }
  }

  lemma UnderStep(index: map<string, Pointer>, cs: seq<Component>, name: string, lost: bool, i: nat, base: Pointer)
    requires i < |cs|
    ensures InsertAll(index, VisitsUnder(cs, name, lost, i), base)
         == InsertAll(InsertAll(index, Visits(cs[i]), base + Head(name, lost) + [Index(i)]),
                      VisitsUnder(cs, name, lost, i + 1), base)
  {
    InsertAllAppend(index, Below(Visits(cs[i]), name, lost, i), VisitsUnder(cs, name, lost, i + 1), base);
    InsertAllBelow(index, Visits(cs[i]), base, name, lost, i);
  }

  // ----- PathParse -----

  function Back(ptr: Pointer): Token
    requires ptr != []
  {
    ptr[|ptr| - 1]
  }

  function PopBack(ptr: Pointer): Pointer
    requires ptr != []
  {
    ptr[..|ptr| - 1]
  }

  /** The configs of a list that describe a sample channel. */
  function Channels(es: seq<Entity>): seq<Entity> {
    if es == [] then []
    else if SAMPLE_CHANNEL == Some(es[|es| - 1].kind) then Channels(es[..|es| - 1]) + [es[|es| - 1]]
    else Channels(es[..|es| - 1])
  }

  function DeviceChannels(ds: seq<Component>): seq<Entity> {
    if ds == [] then [] else DeviceChannels(ds[..|ds| - 1]) + Channels(ds[|ds| - 1].configs)
  }

  /** The ids of the sample channels of a list, and of all devices. */
  function ChannelIds(channels: seq<Entity>): seq<string> {
    if channels == [] then [] else ChannelIds(channels[..|channels| - 1]) + channels[|channels| - 1].ids
  }

  lemma Associate<T>(a: seq<T>, b: seq<T>, c: seq<T>)
    ensures (a + b) + c == a + (b + c)
  {
  }

  lemma {:induction false} ChannelIdsAppend(a: seq<Entity>, b: seq<Entity>)
    ensures ChannelIds(a + b) == ChannelIds(a) + ChannelIds(b)
  {
    if b == [] {
      assert a + b == a;
    } else {
      ChannelIdsAppend(a, b[..|b| - 1]);
      assert (a + b)[..|a + b| - 1] == a + b[..|b| - 1] && (a + b)[|a + b| - 1] == b[|b| - 1];
      Associate(ChannelIds(a), ChannelIds(b[..|b| - 1]), b[|b| - 1].ids);
    }
  }

  /** The identities of data items added to those known; the first of an id stays. */
  function Identified(known: map<string, string>, items: seq<Entity>): map<string, string> {
    if items == [] then known else WithIdentity(Identified(known, items[..|items| - 1]), items[|items| - 1])
  }

  function WithIdentity(known: map<string, string>, item: Entity): map<string, string> {
    if item.identity == None || item.id in known then known else known[item.id := item.identity.value]
  }

  function DeviceIdentities(ds: seq<Component>): map<string, string> {
    if ds == [] then map[] else Identified(DeviceIdentities(ds[..|ds| - 1]), ds[|ds| - 1].dataItems)
  }

  predicate HasIdentity(items: seq<Entity>, id: string) {
    exists item <- items :: item.id == id && item.identity.Some?
  }

  lemma {:induction false} IdentifiedIs(known: map<string, string>, items: seq<Entity>, id: string)
    ensures id in Identified(known, items) <==> id in known || HasIdentity(items, id)
    ensures id in known ==> Identified(known, items)[id] == known[id]
  {
    if items != [] {
      var before, item := items[..|items| - 1], items[|items| - 1];
      IdentifiedIs(known, before, id);
      assert items == before + [item];
    }
  }

  /** The ids with an identity are those of the devices' own data items that have one; data items of components,
      though they are in the index, have none. */
  lemma {:induction false} IdentitiesExactly(ds: seq<Component>, id: string)
    ensures id in DeviceIdentities(ds) <==> exists d <- ds :: HasIdentity(d.dataItems, id)
  {
    if ds != [] {
      var before, d := ds[..|ds| - 1], ds[|ds| - 1];
      IdentitiesExactly(before, id);
      IdentifiedIs(DeviceIdentities(before), d.dataItems, id);
      assert ds == before + [d];
    }
  }

  lemma {:induction false} FirstIdentityStays(known: map<string, string>, items: seq<Entity>, later: seq<Entity>)
    ensures Identified(known, items + later) == Identified(Identified(known, items), later)
  {
    if later == [] {
      assert items + later == items;
    } else {
      FirstIdentityStays(known, items, later[..|later| - 1]);
      assert (items + later)[..|items + later| - 1] == items + later[..|later| - 1];
    }
  }

  lemma {:induction false} LaterDevices(ds: seq<Component>, later: seq<Component>, id: string)
    requires id in DeviceIdentities(ds)
    ensures id in DeviceIdentities(ds + later) && DeviceIdentities(ds + later)[id] == DeviceIdentities(ds)[id]
  {
    if later == [] {
      assert ds + later == ds;
    } else {
      var n, d := |later| - 1, later[|later| - 1];
      LaterDevices(ds, later[..n], id);
      assert (ds + later)[..|ds + later| - 1] == ds + later[..n] && (ds + later)[|ds + later| - 1] == d;
      IdentifiedIs(DeviceIdentities(ds + later[..n]), d.dataItems, id);
    }
  }

  /** The identity of an id is that of the first of the devices' own data items that have the id and an identity. */
  lemma IdentityIsFirst(before: seq<Component>, d: Component, after: seq<Component>, items: seq<Entity>, item: Entity,
                        others: seq<Entity>)
    requires d.dataItems == items + [item] + others && item.identity.Some?
    requires !HasIdentity(items, item.id) && forall c <- before :: !HasIdentity(c.dataItems, item.id)
    ensures var identities := DeviceIdentities(before + [d] + after);
            item.id in identities && identities[item.id] == item.identity.value
  {
    var known := DeviceIdentities(before);
    IdentitiesExactly(before, item.id);
    IdentifiedIs(known, items, item.id);
    FirstIdentityStays(known, items + [item], others);
    FirstIdentityStays(known, items, [item]);
    assert [item][..0] == [];
    var here := Identified(known, items + [item]);
    assert here == WithIdentity(Identified(known, items), item);
    IdentifiedIs(here, others, item.id);
    assert (before + [d])[..|before|] == before;
    LaterDevices(before + [d], after, item.id);
  }

  /** Of a list the configs that describe a sample channel are collected, in their order, and of all devices. */
  lemma {:induction false} ChannelsOfMore(a: seq<Entity>, e: Entity, b: seq<Entity>)
    ensures Channels(a + [e] + b) == Channels(a) + (if e.kind == "SAMPLE_CHANNEL" then [e] else []) + Channels(b)
  {
    if b == [] {
      assert a + [e] + b == a + [e] && (a + [e])[..|a|] == a;
    } else {
      var n, all := |b| - 1, a + [e] + b;
      ChannelsOfMore(a, e, b[..n]);
      assert all[..|all| - 1] == a + [e] + b[..n] && all[|all| - 1] == b[n];
      Associate(Channels(a) + (if e.kind == "SAMPLE_CHANNEL" then [e] else []), Channels(b[..n]), [b[n]]);
    }
  }

  lemma {:induction false} DeviceChannelsOfMore(a: seq<Component>, d: Component, b: seq<Component>)
    ensures DeviceChannels(a + [d] + b) == DeviceChannels(a) + Channels(d.configs) + DeviceChannels(b)
  {
    if b == [] {
      assert a + [d] + b == a + [d] && (a + [d])[..|a|] == a;
    } else {
      var n, all := |b| - 1, a + [d] + b;
      DeviceChannelsOfMore(a, d, b[..n]);
      assert all[..|all| - 1] == a + [d] + b[..n] && all[|all| - 1] == b[n];
      Associate(DeviceChannels(a) + Channels(d.configs), DeviceChannels(b[..n]), Channels(b[n].configs));
    }
  }

  lemma ChannelsStep(ds: seq<Component>, i: nat)
    requires i < |ds|
    ensures DeviceChannels(ds[..i + 1]) == DeviceChannels(ds[..i]) + Channels(ds[i].configs)
    ensures ChannelIds(DeviceChannels(ds[..i + 1]))
         == ChannelIds(DeviceChannels(ds[..i])) + ChannelIds(Channels(ds[i].configs))
    ensures DeviceIdentities(ds[..i + 1]) == Identified(DeviceIdentities(ds[..i]), ds[i].dataItems)
  {
    assert ds[..i + 1][..i] == ds[..i];
    ChannelIdsAppend(DeviceChannels(ds[..i]), Channels(ds[i].configs));
  }

  /** One entity of a list. */
  lemma EntityStep(index: map<string, Pointer>, es: seq<Entity>, name: string, skip: Excluded, i: nat, base: Pointer)
    requires i < |es|
    ensures InsertAll(index, EntityVisits(es, name, skip, i), base)
         == InsertAll(if skip == Some(es[i].kind) then index
                      else Insert(index, es[i].id, base + [Name(name)] + [Index(i)]),
                      EntityVisits(es, name, skip, i + 1), base)
  {
    if skip != Some(es[i].kind) {
      assert EntityVisits(es, name, skip, i)[1..] == EntityVisits(es, name, skip, i + 1);
      assert base + [Name(name), Index(i)] == base + [Name(name)] + [Index(i)];
    }
  }

  class PathParse {
    /** The type of root configs that is left out, if there is one: the Modbus adapter leaves out METHOD configs, the
        OPC-UA one nothing. The last two fields are those of the OPC-UA adapter. */
    const excluded: Excluded
    var idPath: map<string, Pointer>
    var sampleChannel: seq<Entity>
    var flowCollectionChannel: seq<Entity>
    var sampleId: seq<string>
    var idIdentity: map<string, string>

    constructor (excluded: Excluded)
      ensures this.excluded == excluded && idPath == map[] && sampleChannel == flowCollectionChannel == []
      ensures sampleId == [] && idIdentity == map[]
    {
      this.excluded, idPath, sampleChannel, flowCollectionChannel := excluded, map[], [], [];
      sampleId, idIdentity := [], map[];
    }

    /** The loop over a list of configs or data items, with the pointer to the list. Sample channels are collected from
        the configs of devices, and identities from their data items. */
    method EntitiesParse(es: seq<Entity>, ptr: Pointer, skip: Excluded, collect: bool, identify: bool,
                         ghost base: Pointer, ghost name: string)
      requires ptr == base + [Name(name)] && (collect ==> skip == SAMPLE_CHANNEL)
      modifies this
      ensures idPath == InsertAll(old(idPath), EntityVisits(es, name, skip, 0), base)
      ensures if collect then Collected(old(sampleChannel), old(flowCollectionChannel), old(sampleId), Channels(es))
              else unchanged(`sampleChannel, `flowCollectionChannel, `sampleId)
      ensures if identify then idIdentity == Identified(old(idIdentity), es) else unchanged(`idIdentity)
    {
      assert es[..0] == [];
      for i := 0 to |es|
        invariant InsertAll(idPath, EntityVisits(es, name, skip, i), base)
               == InsertAll(old(idPath), EntityVisits(es, name, skip, 0), base)
        invariant if collect then
                    Collected(old(sampleChannel), old(flowCollectionChannel), old(sampleId), Channels(es[..i]))
                  else unchanged(`sampleChannel, `flowCollectionChannel, `sampleId)
        invariant if identify then idIdentity == Identified(old(idIdentity), es[..i]) else unchanged(`idIdentity)
      {
        assert es[..i + 1][..i] == es[..i];
        EntityStep(idPath, es, name, skip, i, base);
        EntityParse(es[i], ptr + [Index(i)], skip, collect, identify,
                    old(sampleChannel), old(flowCollectionChannel), old(sampleId), Channels(es[..i]));
      }
      assert es[..|es|] == es;
    }

    /** What has been collected since the three lists were as given. */
    ghost predicate Collected(channel: seq<Entity>, flow: seq<Entity>, ids: seq<string>, more: seq<Entity>)
      reads `sampleChannel, `flowCollectionChannel, `sampleId
    {
      sampleChannel == channel + more && flowCollectionChannel == flow + more && sampleId == ids + ChannelIds(more)
    }

    /** A sample channel. */
    method Collect(e: Entity)
      modifies `sampleChannel, `flowCollectionChannel, `sampleId
      ensures sampleChannel == old(sampleChannel) + [e] && flowCollectionChannel == old(flowCollectionChannel) + [e]
      ensures sampleId == old(sampleId) + ChannelIds([e])
    {
      sampleChannel := sampleChannel + [e];
      flowCollectionChannel := flowCollectionChannel + [e];
      assert ChannelIds([e]) == ChannelIds([]) + e.ids == e.ids;
      sampleId := sampleId + e.ids;
    }

    /** The body of that loop. */
    method EntityParse(e: Entity, ptr: Pointer, skip: Excluded, collect: bool, identify: bool,
                       ghost channel: seq<Entity>, ghost flow: seq<Entity>, ghost ids: seq<string>,
                       ghost before: seq<Entity>)
      requires collect ==> skip == SAMPLE_CHANNEL && Collected(channel, flow, ids, before)
      modifies this
      ensures idPath == if skip == Some(e.kind) then old(idPath) else Insert(old(idPath), e.id, ptr)
      ensures if collect then
                Collected(channel, flow, ids, if SAMPLE_CHANNEL == Some(e.kind) then before + [e] else before)
              else unchanged(`sampleChannel, `flowCollectionChannel, `sampleId)
      ensures idIdentity == if identify then WithIdentity(old(idIdentity), e) else old(idIdentity)
    {
      if skip != Some(e.kind) {
        idPath := Insert(idPath, e.id, ptr);
      } else if collect {
        Collect(e);
        ChannelIdsAppend(before, [e]);
        Associate(channel, before, [e]);
        Associate(flow, before, [e]);
        Associate(ids, ChannelIds(before), ChannelIds([e]));
      }
      if identify && e.identity.Some? && e.id !in idIdentity {
        idIdentity := idIdentity[e.id := e.identity.value];
      }
    }

    /** The configs and data items of a device or component; returns the pointer as the walk leaves it. */
    method ListsParse(c: Component, base: Pointer, device: bool) returns (ptr: Pointer)
      requires base != [] && Back(base).Index?
      modifies this
      ensures idPath == InsertAll(old(idPath), OwnVisits(c), base)
      ensures if device then
                && Collected(old(sampleChannel), old(flowCollectionChannel), old(sampleId), Channels(c.configs))
                && idIdentity == Identified(old(idIdentity), c.dataItems)
              else unchanged(`sampleChannel, `flowCollectionChannel, `sampleId, `idIdentity)
      ensures ptr == base + (if c.dataItems != [] then [Name("dataItems")]
                             else if c.configs != [] then [Name("configs")] else [])
    {
      ptr := base;
      if c.configs != [] {
        ptr := ptr + [Name("configs")];
        EntitiesParse(c.configs, ptr, SAMPLE_CHANNEL, device, false, base, "configs");
      }
      if c.dataItems != [] {
        if Back(ptr) == Name("configs") { ptr := PopBack(ptr); }
        assert ptr == base;
        ptr := ptr + [Name("dataItems")];
        EntitiesParse(c.dataItems, ptr, None, false, device, base, "dataItems");
      }
      InsertAllAppend(old(idPath), EntityVisits(c.configs, "configs", SAMPLE_CHANNEL, 0),
                      EntityVisits(c.dataItems, "dataItems", None, 0), base);
    }

    /** The loop over components, with the pointer to their list. */
    method ChildrenParse(cs: seq<Component>, ptr: Pointer, ghost base: Pointer, ghost lost: bool)
      requires ptr == base + Head("components", lost)
      modifies this
      ensures idPath == InsertAll(old(idPath), VisitsUnder(cs, "components", lost, 0), base)
      ensures unchanged(`sampleChannel, `flowCollectionChannel, `sampleId, `idIdentity)
      decreases cs, 0
    {
      for i := 0 to |cs|
        invariant InsertAll(idPath, VisitsUnder(cs, "components", lost, i), base)
               == InsertAll(old(idPath), VisitsUnder(cs, "components", lost, 0), base)
        invariant unchanged(`sampleChannel, `flowCollectionChannel, `sampleId, `idIdentity)
      {
        UnderStep(idPath, cs, "components", lost, i, base);
        ComponentsParse(cs[i], ptr + [Index(i)]);
      }
    }

    /** The pointer to the components, from the one that ListsParse leaves. */
    function ToComponents(c: Component, ghost base: Pointer, at: Pointer): (ptr: Pointer)
      requires base != [] && Back(base).Index?
      requires at == base + (if c.dataItems != [] then [Name("dataItems")]
                             else if c.configs != [] then [Name("configs")] else [])
      ensures ptr == base + Head("components", Loses(c))
    {
      var ptr := if Back(at) == Name("dataItems") then PopBack(at) else at;
      assert c.dataItems != [] ==> ptr == base;
      ptr + [Name("components")]
    }

    /** `componentsParse` */
    method ComponentsParse(c: Component, base: Pointer)
      requires base != [] && Back(base).Index?
      modifies this
      ensures idPath == InsertAll(old(idPath), Visits(c), base)
      ensures unchanged(`sampleChannel, `flowCollectionChannel, `sampleId, `idIdentity)
      decreases c, 1
    {
      var ptr := ListsParse(c, base, false);
      InsertAllAppend(old(idPath), OwnVisits(c), VisitsUnder(c.components, "components", Loses(c), 0), base);
      if c.components != [] {
        ChildrenParse(c.components, ToComponents(c, base, ptr), base, Loses(c));
      }
    }

    /** `devicesParse` */
    method DevicesParse(d: Component, base: Pointer)
      requires base != [] && Back(base).Index?
      modifies this
      ensures idPath == InsertAll(old(idPath), Visits(d), base)
      ensures Collected(old(sampleChannel), old(flowCollectionChannel), old(sampleId), Channels(d.configs))
      ensures idIdentity == Identified(old(idIdentity), d.dataItems)
    {
      var ptr := ListsParse(d, base, true);
      InsertAllAppend(old(idPath), OwnVisits(d), VisitsUnder(d.components, "components", Loses(d), 0), base);
      if d.components != [] {
        ChildrenParse(d.components, ToComponents(d, base, ptr), base, Loses(d));
      }
    }

    /** The loop over devices. */
    method AllDevicesParse(ds: seq<Component>, ptr: Pointer, ghost base: Pointer)
      requires ptr == base + Head("devices", false)
      requires sampleChannel == flowCollectionChannel == [] && sampleId == [] && idIdentity == map[]
      modifies this
      ensures idPath == InsertAll(old(idPath), VisitsUnder(ds, "devices", false, 0), base)
      ensures sampleChannel == flowCollectionChannel == DeviceChannels(ds)
      ensures sampleId == ChannelIds(DeviceChannels(ds)) && idIdentity == DeviceIdentities(ds)
    {
      for i := 0 to |ds|
        invariant InsertAll(idPath, VisitsUnder(ds, "devices", false, i), base)
               == InsertAll(old(idPath), VisitsUnder(ds, "devices", false, 0), base)
        invariant sampleChannel == flowCollectionChannel == DeviceChannels(ds[..i])
        invariant sampleId == ChannelIds(DeviceChannels(ds[..i])) && idIdentity == DeviceIdentities(ds[..i])
      {
        UnderStep(idPath, ds, "devices", false, i, base);
        ChannelsStep(ds, i);
        DevicesParse(ds[i], ptr + [Index(i)]);
      }
      assert ds[..|ds|] == ds;
    }

    /** `rootParse` */
    method RootParse(m: Model)
      requires idPath == map[] && sampleChannel == flowCollectionChannel == [] && sampleId == [] && idIdentity == map[]
      modifies this
      ensures idPath == BuiltIndex(m, excluded)
      ensures sampleChannel == flowCollectionChannel == DeviceChannels(m.devices)
      ensures sampleId == ChannelIds(DeviceChannels(m.devices))
      ensures idIdentity == DeviceIdentities(m.devices)
    {
      var ptr: Pointer := [];
      if m.configs != [] {
        ptr := ptr + [Name("configs")];
        EntitiesParse(m.configs, ptr, excluded, false, false, [], "configs");
      }
      InsertAllAppend(map[], EntityVisits(m.configs, "configs", excluded, 0),
                      VisitsUnder(m.devices, "devices", false, 0), []);
      if m.devices != [] {
        if ptr != [] && Back(ptr) == Name("configs") { ptr := PopBack(ptr); }
        AllDevicesParse(m.devices, ptr + [Name("devices")], []);
      }
    }
  }
}
