/** The index against a plain search of the model: which ids it has, and where its pointers lead. */
module ModelSearch {
  import opened Wrappers
  import opened ModelIndex

  // ----- The search -----

  /** A config is left out of the index by its type; a data item never is. */
  predicate Eligible(ptr: Pointer, e: Entity, skip: Excluded) {
    |ptr| >= 2 && ptr[|ptr| - 2] == Name("configs") ==> skip != Some(e.kind)
  }

  /** The pointer leads to an entity with the id that belongs into the index. */
  predicate LeadsTo(m: Model, excluded: Excluded, ptr: Pointer, id: string) {
    match Resolve(m, ptr)
    case None => false
    case Some(e) => e.id == id && Eligible(ptr, e, if |ptr| == 2 then excluded else SAMPLE_CHANNEL)
  }

  /** Some device or component that the pointer passes has configs and no data items. */
  predicate AstrayIn(c: Component, ptr: Pointer)
    decreases c, 1
  {
    && ptr != [] && ptr[0] == Name("components")
    && ((c.configs != [] && c.dataItems == []) || AstrayUnder(c.components, ptr[1..]))
  }

  predicate AstrayUnder(cs: seq<Component>, ptr: Pointer)
    decreases cs, 0
  {
    ptr != [] && ptr[0].Index? && ptr[0].i < |cs| && AstrayIn(cs[ptr[0].i], ptr[1..])
  }

  predicate Astray(m: Model, ptr: Pointer) {
    ptr != [] && ptr[0] == Name("devices") && AstrayUnder(m.devices, ptr[1..])
  }

  function Rank(t: Token): nat {
    match t
    case Index(i) => i
    case Name(name) => if name == "configs" then 0 else if name == "dataItems" then 1 else 2
  }

  /** The order of a walk through the model: configs, data items, then what is below, each from the first on. */
  predicate Precedes(p: Pointer, q: Pointer) {
    p != [] && q != [] && (Rank(p[0]) < Rank(q[0]) || (p[0] == q[0] && Precedes(p[1..], q[1..])))
  }

  // ----- Every visit is a place that the search finds -----

  lemma {:induction false} EntityVisitsAre(es: seq<Entity>, name: string, skip: Excluded, from: nat, k: nat)
    requires k < |EntityVisits(es, name, skip, from)|
    ensures var v := EntityVisits(es, name, skip, from)[k];
            && |v.at| == 2 && v.at[0] == Name(name) && v.at[1].Index? && from <= v.at[1].i < |es|
            && v.entity == es[v.at[1].i] && skip != Some(v.entity.kind) && v.recorded == v.at && !v.lost
    decreases |es| - from
  {
    if skip == Some(es[from].kind) {
      EntityVisitsAre(es, name, skip, from + 1, k);
    } else if k > 0 {
      EntityVisitsAre(es, name, skip, from + 1, k - 1);
    }
  }

  /** Which component a visit below a list belongs to, and which of its visits it is. */
  lemma {:induction false} VisitsUnderAre(cs: seq<Component>, name: string, lost: bool, from: nat, k: nat)
    returns (i: nat, j: nat)
    requires k < |VisitsUnder(cs, name, lost, from)|
    ensures from <= i < |cs| && j < |Visits(cs[i])|
    ensures VisitsUnder(cs, name, lost, from)[k] == BelowOne(Visits(cs[i])[j], name, lost, i)
    decreases |cs| - from
  {
    var n := |Visits(cs[from])|;
    if k < n {
      i, j := from, k;
    } else {
      i, j := VisitsUnderAre(cs, name, lost, from + 1, k - n);
    }
  }

  /** What is true of a visit: it is at the place of its entity, it is lost when it is astray, and what the walk has
      recorded is that place, or leads nowhere. */
  predicate Sound(c: Component, v: Visit) {
    && ResolveIn(c, v.at) == Some(v.entity) && Eligible(v.at, v.entity, SAMPLE_CHANNEL)
    && |v.at| >= 2 && v.lost == AstrayIn(c, v.at)
    && if v.lost then ResolveIn(c, v.recorded) == None else v.recorded == v.at
  }

  lemma Descends(cs: seq<Component>, i: nat, head: Pointer, ptr: Pointer)
    requires i < |cs| && |head| == 1
    ensures var p := head + [Index(i)] + ptr;
            && p[0] == head[0] && |p| == |ptr| + 2 && (|ptr| >= 2 ==> p[|p| - 2] == ptr[|ptr| - 2])
            && ResolveUnder(cs, p[1..]) == ResolveIn(cs[i], ptr) && AstrayUnder(cs, p[1..]) == AstrayIn(cs[i], ptr)
  {
    var p := head + [Index(i)] + ptr;
    assert p[1..] == [Index(i)] + ptr && p[1..][1..] == ptr;
  }

  lemma BelowAt(cs: seq<Component>, i: nat, v: Visit, name: string, lost: bool)
    requires i < |cs| && Sound(cs[i], v)
    ensures var w := BelowOne(v, name, lost, i);
            && |w.at| >= 4 && w.at[0] == Name(name) && ResolveUnder(cs, w.at[1..]) == Some(v.entity)
            && Eligible(w.at, w.entity, SAMPLE_CHANNEL) && AstrayUnder(cs, w.at[1..]) == v.lost
  {
    assert [Name(name), Index(i)] + v.at == [Name(name)] + [Index(i)] + v.at;
    Descends(cs, i, [Name(name)], v.at);
  }

  lemma BelowRecorded(cs: seq<Component>, i: nat, v: Visit, name: string, lost: bool)
    requires i < |cs| && Sound(cs[i], v)
    ensures var w := BelowOne(v, name, lost, i);
            if lost then |w.recorded| >= 2 && w.recorded[0] == Name("configs") && w.recorded[1].Name?
            else
              && w.recorded != [] && w.recorded[0] == Name(name)
              && if v.lost then ResolveUnder(cs, w.recorded[1..]) == None else w.recorded == w.at
  {
    Descends(cs, i, [Name(name)], v.recorded);
  }

  lemma {:induction false} VisitsSound(c: Component, k: nat)
    requires k < |Visits(c)|
    ensures Sound(c, Visits(c)[k])
    decreases c
  {
    var configs := EntityVisits(c.configs, "configs", SAMPLE_CHANNEL, 0);
    var dataItems := EntityVisits(c.dataItems, "dataItems", None, 0);
    if k < |configs| {
      EntityVisitsAre(c.configs, "configs", SAMPLE_CHANNEL, 0, k);
    } else if k < |configs| + |dataItems| {
      EntityVisitsAre(c.dataItems, "dataItems", None, 0, k - |configs|);
    } else {
      var i, j := VisitsUnderAre(c.components, "components", Loses(c), 0, k - |configs| - |dataItems|);
      VisitsSound(c.components[i], j);
      BelowAt(c.components, i, Visits(c.components[i])[j], "components", Loses(c));
      BelowRecorded(c.components, i, Visits(c.components[i])[j], "components", Loses(c));
    }
  }

  predicate RootSound(m: Model, excluded: Excluded, v: Visit) {
    && LeadsTo(m, excluded, v.at, v.entity.id) && Resolve(m, v.at) == Some(v.entity)
    && v.lost == Astray(m, v.at)
    && if v.lost then Resolve(m, v.recorded) == None else v.recorded == v.at
  }

  lemma RootConfigSound(m: Model, excluded: Excluded, k: nat)
    requires k < |EntityVisits(m.configs, "configs", excluded, 0)|
    ensures RootSound(m, excluded, EntityVisits(m.configs, "configs", excluded, 0)[k])
  {
    EntityVisitsAre(m.configs, "configs", excluded, 0, k);
  }

  lemma DeviceVisitSound(m: Model, excluded: Excluded, i: nat, v: Visit)
    requires i < |m.devices| && Sound(m.devices[i], v)
    ensures RootSound(m, excluded, BelowOne(v, "devices", false, i))
  {
    BelowAt(m.devices, i, v, "devices", false);
    BelowRecorded(m.devices, i, v, "devices", false);
  }

  lemma RootVisitsSound(m: Model, excluded: Excluded, k: nat)
    requires k < |RootVisits(m, excluded)|
    ensures RootSound(m, excluded, RootVisits(m, excluded)[k])
  {
    var configs := |EntityVisits(m.configs, "configs", excluded, 0)|;
    if k < configs {
      RootConfigSound(m, excluded, k);
    } else {
      var i, j := VisitsUnderAre(m.devices, "devices", false, 0, k - configs);
      VisitsSound(m.devices[i], j);
      DeviceVisitSound(m, excluded, i, Visits(m.devices[i])[j]);
    }
  }

  // ----- Every place that the search finds is visited -----

  lemma {:induction false} EntityIsVisited(es: seq<Entity>, name: string, skip: Excluded, from: nat, i: nat)
    returns (k: nat)
    requires from <= i < |es| && skip != Some(es[i].kind)
    ensures k < |EntityVisits(es, name, skip, from)|
    ensures EntityVisits(es, name, skip, from)[k].at == [Name(name), Index(i)]
    decreases |es| - from
  {
    if i == from {
      k := 0;
    } else {
      k := EntityIsVisited(es, name, skip, from + 1, i);
      if skip != Some(es[from].kind) {
        k := k + 1;
      }
    }
  }

  lemma {:induction false} UnderIsVisited(cs: seq<Component>, name: string, lost: bool, from: nat, i: nat, j: nat)
    returns (k: nat)
    requires from <= i < |cs| && j < |Visits(cs[i])|
    ensures k < |VisitsUnder(cs, name, lost, from)|
    ensures VisitsUnder(cs, name, lost, from)[k].at == [Name(name), Index(i)] + Visits(cs[i])[j].at
    decreases |cs| - from
  {
    var here, others := Below(Visits(cs[from]), name, lost, from), VisitsUnder(cs, name, lost, from + 1);
    assert VisitsUnder(cs, name, lost, from) == here + others;
    if i == from {
      k := j;
      assert (here + others)[k] == here[j];
    } else {
      var l := UnderIsVisited(cs, name, lost, from + 1, i, j);
      k := |here| + l;
      assert (here + others)[k] == others[l];
    }
  }

  lemma ResolvesDeep(c: Component, ptr: Pointer)
    requires ResolveIn(c, ptr).Some?
    ensures |ptr| >= 2
  {
  }

  lemma {:induction false} IsVisited(c: Component, ptr: Pointer) returns (k: nat)
    requires ResolveIn(c, ptr).Some? && Eligible(ptr, ResolveIn(c, ptr).value, SAMPLE_CHANNEL)
    ensures k < |Visits(c)| && Visits(c)[k].at == ptr
    decreases c
  {
    var configs := |EntityVisits(c.configs, "configs", SAMPLE_CHANNEL, 0)|;
    var dataItems := |EntityVisits(c.dataItems, "dataItems", None, 0)|;
    if ptr[0].name == "configs" {
      k := EntityIsVisited(c.configs, "configs", SAMPLE_CHANNEL, 0, ptr[1].i);
      assert ptr == [ptr[0], ptr[1]];
    } else if ptr[0].name == "dataItems" {
      k := EntityIsVisited(c.dataItems, "dataItems", None, 0, ptr[1].i);
      k := k + configs;
      assert ptr == [ptr[0], ptr[1]];
    } else {
      var i := ptr[1].i;
      assert ptr[1..][1..] == ptr[2..];
      ResolvesDeep(c.components[i], ptr[2..]);
      var j := IsVisited(c.components[i], ptr[2..]);
      k := UnderIsVisited(c.components, "components", Loses(c), 0, i, j);
      k := k + configs + dataItems;
      assert ptr == [ptr[0], ptr[1]] + ptr[2..];
    }
  }

  lemma RootIsVisited(m: Model, excluded: Excluded, ptr: Pointer, id: string) returns (k: nat)
    requires LeadsTo(m, excluded, ptr, id)
    ensures k < |RootVisits(m, excluded)| && RootVisits(m, excluded)[k].at == ptr
  {
    if ptr[0].name == "configs" {
      k := EntityIsVisited(m.configs, "configs", excluded, 0, ptr[1].i);
      assert ptr == [ptr[0], ptr[1]];
    } else {
      var i := ptr[1].i;
      assert ptr[1..][1..] == ptr[2..];
      ResolvesDeep(m.devices[i], ptr[2..]);
      var j := IsVisited(m.devices[i], ptr[2..]);
      k := UnderIsVisited(m.devices, "devices", false, 0, i, j);
      k := k + |EntityVisits(m.configs, "configs", excluded, 0)|;
      assert ptr == [ptr[0], ptr[1]] + ptr[2..];
    }
  }

  // ----- The visits are in the order of the walk -----

  predicate Ordered(vs: seq<Visit>) {
    forall i, j :: 0 <= i < j < |vs| ==> Precedes(vs[i].at, vs[j].at)
  }

  lemma OrderedAppend(a: seq<Visit>, b: seq<Visit>)
    requires Ordered(a) && Ordered(b)
    requires forall i, j :: 0 <= i < |a| && 0 <= j < |b| ==> Precedes(a[i].at, b[j].at)
    ensures Ordered(a + b)
  {
  }

  lemma {:induction false} EntitiesOrdered(es: seq<Entity>, name: string, skip: Excluded, from: nat)
    ensures Ordered(EntityVisits(es, name, skip, from))
    decreases |es| - from
  {
    if from < |es| {
      var others := EntityVisits(es, name, skip, from + 1);
      EntitiesOrdered(es, name, skip, from + 1);
      var at := [Name(name), Index(from)];
      forall j | 0 <= j < |others|
        ensures Precedes(at, others[j].at)
      {
        EntityVisitsAre(es, name, skip, from + 1, j);
        PrecedesBelow(Name(name), [Index(from)], [others[j].at[1]]);
        assert others[j].at == [Name(name)] + [others[j].at[1]] && at == [Name(name)] + [Index(from)];
      }
      OrderedAppend([Visit(es[from], at, at, false)], others);
    }
  }

  lemma PrecedesBelow(t: Token, p: Pointer, q: Pointer)
    requires Precedes(p, q)
    ensures Precedes([t] + p, [t] + q)
  {
    assert ([t] + p)[1..] == p && ([t] + q)[1..] == q;
  }

  lemma {:induction false} UnderOrdered(cs: seq<Component>, name: string, lost: bool, from: nat)
    requires forall i :: from <= i < |cs| ==> Ordered(Visits(cs[i]))
    ensures Ordered(VisitsUnder(cs, name, lost, from))
    decreases |cs| - from
  {
    if from < |cs| {
      var vs, here := Visits(cs[from]), Below(Visits(cs[from]), name, lost, from);
      var others := VisitsUnder(cs, name, lost, from + 1);
      UnderOrdered(cs, name, lost, from + 1);
      forall i, j | 0 <= i < j < |here|
        ensures Precedes(here[i].at, here[j].at)
      {
        PrecedesBelow(Index(from), vs[i].at, vs[j].at);
        PrecedesBelow(Name(name), [Index(from)] + vs[i].at, [Index(from)] + vs[j].at);
        Regroup(Name(name), Index(from), vs[i].at);
        Regroup(Name(name), Index(from), vs[j].at);
      }
      forall i, j | 0 <= i < |here| && 0 <= j < |others|
        ensures Precedes(here[i].at, others[j].at)
      {
        var k, l := VisitsUnderAre(cs, name, lost, from + 1, j);
        var p, q := [Index(from)] + vs[i].at, [Index(k)] + Visits(cs[k])[l].at;
        PrecedesBelow(Name(name), p, q);
        Regroup(Name(name), Index(from), vs[i].at);
        Regroup(Name(name), Index(k), Visits(cs[k])[l].at);
      }
      OrderedAppend(here, others);
    }
  }

  lemma Regroup(a: Token, b: Token, p: Pointer)
    ensures [a, b] + p == [a] + ([b] + p)
  {
  }

  /** Lists of visits under different names are in order as their names are. */
  lemma ListsOrdered(a: seq<Visit>, b: seq<Visit>, r: nat)
    requires Ordered(a) && Ordered(b)
    requires forall i :: 0 <= i < |a| ==> a[i].at != [] && Rank(a[i].at[0]) < r
    requires Ranked(b, r)
    ensures Ordered(a + b)
    ensures forall i :: 0 <= i < |a + b| ==> (a + b)[i].at != [] && Rank((a + b)[i].at[0]) <= r
  {
    OrderedAppend(a, b);
  }

  lemma Ranks()
    ensures Rank(Name("configs")) == 0 && Rank(Name("dataItems")) == 1
    ensures Rank(Name("components")) == 2 && Rank(Name("devices")) == 2
  {
    assert "dataItems"[0] != "configs"[0] && "components"[2] != "configs"[2] && "devices"[0] != "configs"[0];
    assert "components"[0] != "dataItems"[0] && |"devices"| != |"dataItems"|;
  }

  predicate Ranked(vs: seq<Visit>, r: nat) {
    forall i :: 0 <= i < |vs| ==> vs[i].at != [] && Rank(vs[i].at[0]) == r
  }

  lemma EntitiesRanked(es: seq<Entity>, name: string, skip: Excluded, r: nat)
    requires Rank(Name(name)) == r
    ensures Ranked(EntityVisits(es, name, skip, 0), r)
  {
    forall i | 0 <= i < |EntityVisits(es, name, skip, 0)| {
      EntityVisitsAre(es, name, skip, 0, i);
    }
  }

  lemma UnderRanked(cs: seq<Component>, name: string, lost: bool, r: nat)
    requires Rank(Name(name)) == r
    ensures Ranked(VisitsUnder(cs, name, lost, 0), r)
  {
    forall i | 0 <= i < |VisitsUnder(cs, name, lost, 0)|
      ensures VisitsUnder(cs, name, lost, 0)[i].at != [] && VisitsUnder(cs, name, lost, 0)[i].at[0] == Name(name)
    {
      var k, l := VisitsUnderAre(cs, name, lost, 0, i);
    }
  }

  lemma {:induction false} VisitsOrdered(c: Component)
    ensures Ordered(Visits(c))
    decreases c
  {
    var configs := EntityVisits(c.configs, "configs", SAMPLE_CHANNEL, 0);
    var dataItems := EntityVisits(c.dataItems, "dataItems", None, 0);
    var below := VisitsUnder(c.components, "components", Loses(c), 0);
    EntitiesOrdered(c.configs, "configs", SAMPLE_CHANNEL, 0);
    EntitiesOrdered(c.dataItems, "dataItems", None, 0);
    Ranks();
    EntitiesRanked(c.configs, "configs", SAMPLE_CHANNEL, 0);
    EntitiesRanked(c.dataItems, "dataItems", None, 1);
    UnderRanked(c.components, "components", Loses(c), 2);
    forall i | 0 <= i < |c.components|
      ensures Ordered(Visits(c.components[i]))
    {
      VisitsOrdered(c.components[i]);
    }
    UnderOrdered(c.components, "components", Loses(c), 0);
    ListsOrdered(configs, dataItems, 1);
    ListsOrdered(configs + dataItems, below, 2);
  }

  lemma RootVisitsOrdered(m: Model, excluded: Excluded)
    ensures Ordered(RootVisits(m, excluded))
  {
    EntitiesOrdered(m.configs, "configs", excluded, 0);
    Ranks();
    EntitiesRanked(m.configs, "configs", excluded, 0);
    UnderRanked(m.devices, "devices", false, 2);
    forall i | 0 <= i < |m.devices|
      ensures Ordered(Visits(m.devices[i]))
    {
      VisitsOrdered(m.devices[i]);
    }
    UnderOrdered(m.devices, "devices", false, 0);
    ListsOrdered(EntityVisits(m.configs, "configs", excluded, 0), VisitsUnder(m.devices, "devices", false, 0), 2);
  }

  // ----- The index -----

  /** The first visit with an id. */
  function First(vs: seq<Visit>, id: string): (k: nat)
    ensures k <= |vs| && (k < |vs| ==> vs[k].entity.id == id)
    ensures forall i :: 0 <= i < k ==> vs[i].entity.id != id
  {
    if vs == [] || vs[0].entity.id == id then 0 else 1 + First(vs[1..], id)
  }

  lemma {:induction false} FirstWins(index: map<string, Pointer>, vs: seq<Visit>, base: Pointer, id: string)
    ensures var result, k := InsertAll(index, vs, base), First(vs, id);
            && (id in result <==> id in index || k < |vs|)
            && (id in index ==> result[id] == index[id])
            && (id !in index && k < |vs| ==> result[id] == base + vs[k].recorded)
    decreases |vs|
  {
    if vs != [] {
      FirstWins(Insert(index, vs[0].entity.id, base + vs[0].recorded), vs[1..], base, id);
    }
  }

  /** The place with the id that a walk through the model comes to first. */
  ghost predicate IsFirst(m: Model, excluded: Excluded, ptr: Pointer, id: string) {
    && LeadsTo(m, excluded, ptr, id)
    && forall q :: LeadsTo(m, excluded, q, id) && q != ptr ==> Precedes(ptr, q)
  }

  /** The pointer recorded for the id means that place, or leads nowhere as the walk was astray. */
  ghost predicate Means(m: Model, excluded: Excluded, id: string, recorded: Pointer, p: Pointer) {
    IsFirst(m, excluded, p, id) && if Astray(m, p) then Resolve(m, recorded) == None else recorded == p
  }

  lemma VisitsOfId(m: Model, excluded: Excluded, id: string)
    ensures var vs := RootVisits(m, excluded);
            var k := First(vs, id);
            && (k < |vs| <==> exists p :: LeadsTo(m, excluded, p, id))
            && (k < |vs| ==> IsFirst(m, excluded, vs[k].at, id) && RootSound(m, excluded, vs[k]))
  {
    var vs := RootVisits(m, excluded);
    var k := First(vs, id);
    if k < |vs| {
      RootVisitsSound(m, excluded, k);
    }
    forall q | LeadsTo(m, excluded, q, id)
      ensures k < |vs| && (q != vs[k].at ==> Precedes(vs[k].at, q))
    {
      var j := RootIsVisited(m, excluded, q, id);
      RootVisitsSound(m, excluded, j);
      RootVisitsOrdered(m, excluded);
    }
  }

  /** The index agrees with the search. It has exactly the ids that lead somewhere; of several places with an id it
      means the first; and its pointer is that place, unless the walk has lost its way on the way there: then the
      pointer leads nowhere. */
  lemma IndexAgrees(m: Model, excluded: Excluded, id: string)
    ensures var index := BuiltIndex(m, excluded);
            && (id in index <==> exists p :: LeadsTo(m, excluded, p, id))
            && (id in index ==> exists p :: Means(m, excluded, id, index[id], p))
  {
    var vs := RootVisits(m, excluded);
    var k := First(vs, id);
    VisitsOfId(m, excluded, id);
    FirstWins(map[], vs, [], id);
    if k < |vs| {
      assert [] + vs[k].recorded == vs[k].recorded;
      assert Means(m, excluded, id, vs[k].recorded, vs[k].at);
    }
  }

  lemma FirstIsUnique(m: Model, excluded: Excluded, p: Pointer, q: Pointer, id: string)
    requires IsFirst(m, excluded, p, id) && IsFirst(m, excluded, q, id)
    ensures p == q
  {
    if p != q {
      assert Precedes(p, q) && Precedes(q, p);
      PrecedesAsymmetric(p, q);
    }
  }

  lemma {:induction false} PrecedesAsymmetric(p: Pointer, q: Pointer)
    requires Precedes(p, q)
    ensures !Precedes(q, p)
    decreases |p|
  {
    if Rank(p[0]) == Rank(q[0]) {
      PrecedesAsymmetric(p[1..], q[1..]);
    }
  }

  /** A pointer of the index leads to an entity with its id exactly when there is, above the first place with that id,
      no device or component with configs and without data items. */
  lemma PointerResolves(m: Model, excluded: Excluded, id: string, p: Pointer)
    requires IsFirst(m, excluded, p, id)
    ensures var index := BuiltIndex(m, excluded);
            id in index && (LeadsTo(m, excluded, index[id], id) <==> !Astray(m, p))
  {
    IndexAgrees(m, excluded, id);
    var q :| Means(m, excluded, id, BuiltIndex(m, excluded)[id], q);
    FirstIsUnique(m, excluded, p, q, id);
  }

  /** In a model where every device and component that has configs and components has data items too, every pointer of
      the index resolves. */
  predicate NeverLoses(c: Component) {
    && (c.configs != [] && c.components != [] ==> c.dataItems != [])
    && forall d <- c.components :: NeverLoses(d)
  }

  lemma {:induction false} NeverAstray(c: Component, ptr: Pointer)
    requires NeverLoses(c) && ResolveIn(c, ptr).Some?
    ensures !AstrayIn(c, ptr)
    decreases c
  {
    if ptr[0] == Name("components") {
      var d := c.components[ptr[1].i];
      assert d in c.components;
      NeverAstray(d, ptr[1..][1..]);
    }
  }

  lemma AllResolve(m: Model, excluded: Excluded, id: string)
    requires (forall d <- m.devices :: NeverLoses(d)) && id in BuiltIndex(m, excluded)
    ensures IsFirst(m, excluded, BuiltIndex(m, excluded)[id], id)
  {
    IndexAgrees(m, excluded, id);
    forall p: Pointer | LeadsTo(m, excluded, p, id)
      ensures !Astray(m, p)
    {
      if p[0] == Name("devices") {
        var d: Component := m.devices[p[1].i];
        assert d in m.devices;
        NeverAstray(d, p[1..][1..]);
      }
    }
  }

  /** Models that do lose their way: a device with a config, no data items, and a component with a data item. */
  function Losing(config: Entity, item: Entity): Model {
    Model([], [Component([config], [], [Component([], [item], [])])])
  }

  const TO_ITEM: Pointer :=
    [Name("devices")] + [Index(0)] + ([Name("components")] + [Index(0)] + [Name("dataItems"), Index(0)])

  lemma ItemIsThere(config: Entity, item: Entity)
    ensures Resolve(Losing(config, item), TO_ITEM) == Some(item)
    ensures Eligible(TO_ITEM, item, SAMPLE_CHANNEL) && |TO_ITEM| == 6
  {
    var component, p := Component([], [item], []), [Name("dataItems"), Index(0)];
    var device, q := Component([config], [], [component]), [Name("components")] + [Index(0)] + p;
    Ranks();
    assert p[1..] == [Index(0)];
    Descends([component], 0, [Name("components")], p);
    Descends([device], 0, [Name("devices")], q);
  }

  lemma LosesItem(config: Entity, item: Entity)
    requires config.id != item.id
    ensures LeadsTo(Losing(config, item), None, TO_ITEM, item.id)
    ensures var index := BuiltIndex(Losing(config, item), None);
            item.id in index && Resolve(Losing(config, item), index[item.id]) == None
  {
    var m := Losing(config, item);
    ItemIsThere(config, item);
    IndexAgrees(m, None, item.id);
    forall r: Pointer | LeadsTo(m, None, r, item.id)
      ensures Astray(m, r)
    {
      OnlyBelow(m.devices[0], r[1..][1..]);
    }
    assert LeadsTo(m, None, TO_ITEM, item.id);
    var p :| Means(m, None, item.id, BuiltIndex(m, None)[item.id], p);
    assert LeadsTo(m, None, p, item.id);
  }

  lemma OnlyBelow(device: Component, ptr: Pointer)
    requires |device.configs| == 1 && device.dataItems == [] && ResolveIn(device, ptr).Some?
    requires ResolveIn(device, ptr).value.id != device.configs[0].id
    ensures AstrayIn(device, ptr)
  {
  }

  // ----- Looking ids up -----

  /** One entry of a query: an id, and perhaps an operation. */
  datatype Query = Query(id: string, operation: Option<string>)

  /** The reply to it. An entity without methods gets none. */
  datatype Reply = Value(entity: Entity, operation: string) | Silent | Unknown

  predicate ReplyIs(m: Model, idPath: map<string, Pointer>, q: Query, reply: Reply) {
    match reply
    case Unknown => q.id !in idPath
    case Silent => q.id in idPath && Resolve(m, idPath[q.id]).Some? && !Resolve(m, idPath[q.id]).value.hasMethods
    case Value(entity, operation) =>
      && q.id in idPath && Resolve(m, idPath[q.id]) == Some(entity) && entity.hasMethods
      && operation == if q.operation.Some? then q.operation.value else "get_value"
  }

  /** The lookups of `QueryRequest::get`. A pointer that leads nowhere ends the request with an exception. */
  method Get(m: Model, idPath: map<string, Pointer>, queries: seq<Query>) returns (replies: seq<Reply>, threw: bool)
    ensures |replies| <= |queries| && (!threw ==> |replies| == |queries|)
    ensures forall i :: 0 <= i < |replies| ==> ReplyIs(m, idPath, queries[i], replies[i])
    ensures threw ==>
              && |replies| < |queries| && queries[|replies|].id in idPath
              && Resolve(m, idPath[queries[|replies|].id]) == None
  {
    replies, threw := [], false;
    for i := 0 to |queries|
      invariant |replies| == i && forall k :: 0 <= k < i ==> ReplyIs(m, idPath, queries[k], replies[k])
    {
      var q := queries[i];
      var operation := if q.operation.Some? then q.operation.value else "get_value";
      if q.id in idPath {
        var dataItem := Resolve(m, idPath[q.id]);
        if dataItem == None { return replies, true; }
        replies := replies + [if dataItem.value.hasMethods then Value(dataItem.value, operation) else Silent];
      } else {
        replies := replies + [Unknown];
      }
    }
  }
}
