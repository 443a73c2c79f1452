/** Setups and teardowns of different instances at the same time: however their verbs interleave, each
    instance gets what it would get alone. */
module NetnsParallel {
  import opened Options
  import opened NetnsNames
  import opened NetnsKernel
  import opened Netns

  /** What is seen of the links: the instance's own. */
  lemma OwnLinks(k: Kernel, i: string)
    ensures forall key :: key in View(k, i).links <==> key in k.links && Owned(i, key)
    ensures forall key | key in View(k, i).links :: View(k, i).links[key] == k.links[key]
  {
    hide Owned, Only;
  }

  /** Links that agree on the instance's keys look alike to it. */
  lemma SameOwnLinks(a: Kernel, b: Kernel, i: string)
    requires forall key | Owned(i, key) :: (key in a.links <==> key in b.links) && (key in a.links ==> a.links[key] == b.links[key])
    ensures View(a, i).links == View(b, i).links
  {
    hide Owned, Only;
    OwnLinks(a, i);
    OwnLinks(b, i);
  }

  lemma OnlyUpdate<V>(m: map<string, V>, x: string, v: V)
    ensures Only(m[x := v], x) == Only(m, x)[x := v]
  {}

  lemma OnlyRemove<V>(m: map<string, V>, x: string)
    ensures Only(m - {x}, x) == Only(m, x) - {x} == map[]
  {}

  lemma OnlyMeans<V>(m: map<string, V>, x: string)
    ensures x in Only(m, x) <==> x in m
    ensures x in m ==> Only(m, x)[x] == m[x]
  {}

  /** The instance's part of the kernel, and nothing else, decides whether a verb of its can be done and
      what it makes of that part. */
  lemma VerbActsOnView(k: Kernel, v: Verb, i: string)
    requires Tidy(k) && OfInstance(v, i)
    ensures Apply(View(k, i), v) == if Apply(k, v).Some? then Some(View(Apply(k, v).value, i)) else None
  {
    hide Tidy, Owned, NetnsName, HostVeth, RunnerVeth, DropInName, Only, View, PeersOf, Kin;
    match v {
      case DelLink(name) => DelLinkOnView(k, i);
      case DelSpace(ns) => DelSpaceOnView(k, i);
      case AddVeth(name, peer) => AddVethOnView(k, i);
      case MoveLink(name, ns) => MoveOnView(k, i);
      case SetMtu(key, mtu) => LinkOnView(k, key, (l: Link) => l.(mtu := mtu), i);
      case AddAddr(key, addr, len) =>
        OwnLinks(k, i);
        LinkOnView(k, key, (l: Link) => l.(addrs := l.addrs + {(addr, len)}), i);
      case SetUp(key) => LinkOnView(k, key, (l: Link) => l.(up := true), i);
      case SetForwarding(name) => LinkOnView(k, Key(Host, name), (l: Link) => l.(forwarding := true), i);
      case AddDefaultRoute(ns, via) => RouteOnView(k, via, i);
      case LoUp(ns) => SpaceOnView(k, (s: Space) => s.(loUp := true), i);
      case NoV6All(ns) => SpaceOnView(k, (s: Space) => s.(noV6All := true), i);
      case NoV6Default(ns) => SpaceOnView(k, (s: Space) => s.(noV6Default := true), i);
      case AddSpace(ns) => AddSpaceOnView(k, i);
      case _ => FilesOnView(k, v, i);
    }
  }

  lemma LinkOnView(k: Kernel, key: Key, f: Link -> Link, i: string)
    requires Owned(i, key)
    ensures OnLink(View(k, i), key, f) ==
      if OnLink(k, key, f).Some? then Some(View(OnLink(k, key, f).value, i)) else None
  {
    hide Owned, Only;
    OwnLinks(k, i);
    if key in k.links {
      var after := OnLink(k, key, f).value;
      OwnLinks(after, i);
      assert View(after, i).links == View(k, i).links[key := f(k.links[key])];
    }
  }

  lemma SpaceOnView(k: Kernel, f: Space -> Space, i: string)
    ensures OnSpace(View(k, i), NetnsName(i), f) ==
      if OnSpace(k, NetnsName(i), f).Some? then Some(View(OnSpace(k, NetnsName(i), f).value, i)) else None
  {
    hide Owned, Only, NetnsName;
    OnlyMeans(k.spaces, NetnsName(i));
    if NetnsName(i) in k.spaces { OnlyUpdate(k.spaces, NetnsName(i), f(k.spaces[NetnsName(i)])); }
  }

  lemma AddSpaceOnView(k: Kernel, i: string)
    ensures Apply(View(k, i), AddSpace(NetnsName(i))) ==
      if Apply(k, AddSpace(NetnsName(i))).Some? then Some(View(Apply(k, AddSpace(NetnsName(i))).value, i)) else None
  {
    hide Owned, Only, NetnsName, PeersOf;
    OnlyMeans(k.spaces, NetnsName(i));
    OnlyUpdate(k.spaces, NetnsName(i), NEW_SPACE);
  }

  lemma RouteOnView(k: Kernel, via: Ipv4, i: string)
    ensures var v := AddDefaultRoute(NetnsName(i), via);
      Apply(View(k, i), v) == if Apply(k, v).Some? then Some(View(Apply(k, v).value, i)) else None
  {
    hide Only, PeersOf, OnSpace, View;
    var ns := NetnsName(i);
    OwnLinks(k, i);
    ViewSpace(k, i);
    SpaceOnView(k, (s: Space) => s.(gateway := Some(via)), i);
    assert forall key: Key | key.at == In(ns) :: Owned(i, key);
  }

  lemma ViewSpace(k: Kernel, i: string)
    ensures NetnsName(i) in View(k, i).spaces <==> NetnsName(i) in k.spaces
    ensures NetnsName(i) in k.spaces ==> View(k, i).spaces[NetnsName(i)] == k.spaces[NetnsName(i)]
  {
    hide NetnsName, Only;
    OnlyMeans(k.spaces, NetnsName(i));
  }

  lemma FilesOnView(k: Kernel, v: Verb, i: string)
    requires OfInstance(v, i) && (v.PutDropIn? || v.RmDropIn? || v.PutResolv? || v.RmResolv?)
    ensures Apply(View(k, i), v) == if Apply(k, v).Some? then Some(View(Apply(k, v).value, i)) else None
  {
    hide Owned, Only, NetnsName, DropInName, PeersOf;
    OnlyMeans(k.dropIns, DropInName(i));
    OnlyMeans(k.resolvs, i);
    OnlyRemove(k.dropIns, DropInName(i));
    OnlyRemove(k.resolvs, i);
    match v {
      case PutDropIn(file, text) => OnlyUpdate(k.dropIns, file, text);
      case PutResolv(r, text) => OnlyUpdate(k.resolvs, r, text);
      case _ =>
    }
  }

  lemma DelLinkOnView(k: Kernel, i: string)
    ensures var v := DelLink(HostVeth(i));
      Apply(View(k, i), v) == if Apply(k, v).Some? then Some(View(Apply(k, v).value, i)) else None
  {
    hide Owned, Only, NetnsName, HostVeth, RunnerVeth;
    PairIsOwned(i);
    OwnLinks(k, i);
    var key := Key(Host, HostVeth(i));
    if key in k.links {
      assert PeersOf(View(k, i).links, {key}) == PeersOf(k.links, {key});
      GoneFromView(k, {key} + PeersOf(k.links, {key}), i);
    }
  }

  lemma GoneFromView(k: Kernel, gone: set<Key>, i: string)
    ensures View(k.(links := k.links - gone), i).links == View(k, i).links - gone
  {
    hide Owned, Only;
    OwnLinks(k, i);
    OwnLinks(k.(links := k.links - gone), i);
  }

  lemma DelSpaceOnView(k: Kernel, i: string)
    ensures var v := DelSpace(NetnsName(i));
      Apply(View(k, i), v) == if Apply(k, v).Some? then Some(View(Apply(k, v).value, i)) else None
  {
    hide Only;
    var ns := NetnsName(i);
    OwnLinks(k, i);
    OnlyMeans(k.spaces, ns);
    OnlyRemove(k.spaces, ns);
    var inside := set key | key in k.links && key.at == In(ns);
    assert inside == set key | key in View(k, i).links && key.at == In(ns);
    assert PeersOf(View(k, i).links, inside) == PeersOf(k.links, inside);
    GoneFromView(k, inside + PeersOf(k.links, inside), i);
  }

  lemma AddVethOnView(k: Kernel, i: string)
    ensures var v := AddVeth(HostVeth(i), RunnerVeth(i));
      Apply(View(k, i), v) == if Apply(k, v).Some? then Some(View(Apply(k, v).value, i)) else None
  {
    hide Owned, Only, NetnsName, HostVeth, RunnerVeth, PeersOf;
    PairIsOwned(i);
    OwnLinks(k, i);
    var v := AddVeth(HostVeth(i), RunnerVeth(i));
    if Apply(k, v).Some? {
      var after := Apply(k, v).value;
      OwnLinks(after, i);
      assert View(after, i).links == Apply(View(k, i), v).value.links;
    }
  }

  lemma MoveOnView(k: Kernel, i: string)
    requires Tidy(k)
    ensures var v := MoveLink(RunnerVeth(i), NetnsName(i));
      Apply(View(k, i), v) == if Apply(k, v).Some? then Some(View(Apply(k, v).value, i)) else None
  {
    hide Owned, Only, NetnsName, HostVeth, RunnerVeth, PeersOf, Kin;
    PairIsOwned(i);
    OwnLinks(k, i);
    ViewSpace(k, i);
    var v := MoveLink(RunnerVeth(i), NetnsName(i));
    if Apply(k, v).Some? {
      MoveStaysInFamily(k, i);
      var after := Apply(k, v).value;
      OwnLinks(after, i);
      assert View(after, i).links == Apply(View(k, i), v).value.links;
    }
  }

  // ---------- Interleavings ------------------------------------------------------------

  /** A verb on behalf of an instance; refused verbs change nothing. */
  datatype Act = Act(instance: string, verb: Verb)

  predicate ActsOnOwn(acts: seq<Act>) {
    forall n | 0 <= n < |acts| :: OfInstance(acts[n].verb, acts[n].instance)
  }

  function Together(k: Kernel, acts: seq<Act>): Kernel {
    if acts == [] then k else After(Together(k, acts[..|acts| - 1]), acts[|acts| - 1].verb)
  }

  function OnlyOf(acts: seq<Act>, i: string): seq<Act> {
    if acts == [] then []
    else
      var last := acts[|acts| - 1];
      OnlyOf(acts[..|acts| - 1], i) + if last.instance == i then [last] else []
  }

  lemma {:induction false} TogetherIsTidy(k: Kernel, acts: seq<Act>)
    requires Tidy(k) && ActsOnOwn(acts)
    ensures Tidy(Together(k, acts))
  {
    hide Tidy, OfInstance, After;
    if acts != [] {
      var n := |acts| - 1;
      TogetherIsTidy(k, acts[..n]);
      AfterIsFramed(Together(k, acts[..n]), acts[n].verb, acts[n].instance);
    }
  }

  /** However the verbs of different instances interleave, each instance ends with what its own verbs, in
      their order, would have made of its own part of the kernel. */
  lemma {:induction false} InterleavingIsInvisible(k: Kernel, acts: seq<Act>, i: string)
    requires Tidy(k) && ActsOnOwn(acts)
    ensures View(Together(k, acts), i) == Together(View(k, i), OnlyOf(acts, i))
  {
    hide Tidy, OfInstance, After, View, Apply;
    if acts != [] {
      var n := |acts| - 1;
      InterleavingIsInvisible(k, acts[..n], i);
      TogetherIsTidy(k, acts[..n]);
      var own, last := OnlyOf(acts[..n], i), acts[n];
      OneMoreAct(Together(k, acts[..n]), last, i);
      if last.instance == i {
        assert (own + [last])[..|own|] == own;
      } else {
        assert own + [] == own;
      }
    }
  }

  lemma OneMoreAct(k: Kernel, act: Act, i: string)
    requires Tidy(k) && OfInstance(act.verb, act.instance)
    ensures View(After(k, act.verb), i) == if act.instance == i then After(View(k, i), act.verb) else View(k, i)
  {
    hide Tidy, OfInstance, After, View, Apply, Framed;
    if act.instance == i {
      AfterOnView(k, act.verb, i);
    } else {
      AfterIsFramed(k, act.verb, act.instance);
      FramedMeansStrip(k, After(k, act.verb), act.instance);
      OtherInstancesUntouched(k, After(k, act.verb), act.instance, i);
    }
  }

  /** Each of its verbs is granted or refused as it would have been without the others. */
  lemma VerdictsAreOwn(k: Kernel, acts: seq<Act>, n: nat)
    requires Tidy(k) && ActsOnOwn(acts) && n < |acts|
    ensures var i := acts[n].instance;
      Apply(Together(k, acts[..n]), acts[n].verb).Some? <==> Apply(Together(k, OnlyOf(acts[..n], i)), acts[n].verb).Some?
  {
    hide Tidy, OfInstance, View, Apply;
    var i := acts[n].instance;
    var own := OnlyOf(acts[..n], i);
    OwnActs(acts[..n], i);
    SameAsAlone(k, acts[..n], i);
    TogetherIsTidy(k, acts[..n]);
    TogetherIsTidy(k, own);
    VerbActsOnView(Together(k, acts[..n]), acts[n].verb, i);
    VerbActsOnView(Together(k, own), acts[n].verb, i);
  }

  lemma {:induction false} OwnActs(acts: seq<Act>, i: string)
    ensures OnlyOf(OnlyOf(acts, i), i) == OnlyOf(acts, i)
    ensures ActsOnOwn(acts) ==> ActsOnOwn(OnlyOf(acts, i))
  {
    hide OfInstance;
    if acts != [] {
      var n := |acts| - 1;
      OwnActs(acts[..n], i);
      var own, last := OnlyOf(acts[..n], i), acts[n];
      assert own + [] == own && (own + [last])[..|own|] == own;
      if ActsOnOwn(acts) {
        assert ActsOnOwn(acts[..n]) && OfInstance(last.verb, last.instance);
      }
    }
  }

  /** What an instance has after an interleaving is what it would have if the others had done nothing. */
  lemma SameAsAlone(k: Kernel, acts: seq<Act>, i: string)
    requires Tidy(k) && ActsOnOwn(acts)
    ensures View(Together(k, acts), i) == View(Together(k, OnlyOf(acts, i)), i)
  {
    hide Tidy, View, ActsOnOwn;
    OwnActs(acts, i);
    InterleavingIsInvisible(k, acts, i);
    InterleavingIsInvisible(k, OnlyOf(acts, i), i);
  }

  lemma FramedMeansStrip(a: Kernel, b: Kernel, i: string)
    requires Framed(a, b, i)
    ensures Strip(a, i) == Strip(b, i)
  {
    hide Tidy, Strip;
  }

  lemma AfterOnView(k: Kernel, v: Verb, i: string)
    requires Tidy(k) && OfInstance(v, i)
    ensures View(After(k, v), i) == After(View(k, i), v)
  {
    hide Tidy, OfInstance, View, Apply;
    VerbActsOnView(k, v, i);
  }
}
