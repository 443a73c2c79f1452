/** The part of the kernel and of the file system that network namespaces are made of, the verbs that
    change it, and whose what is. */
module NetnsKernel {
  import opened Options
  import opened NetnsNames

  datatype Where = Host | In(ns: string)

  /** An interface name means something only together with where it is. */
  datatype Key = Key(at: Where, name: string)

  datatype Link = Link(peer: Option<Key>, mtu: nat, up: bool, addrs: set<(Ipv4, nat)>, forwarding: bool)

  datatype Space = Space(loUp: bool, gateway: Option<Ipv4>, noV6All: bool, noV6Default: bool)

  /** `dropIns` by file name, `resolvs` by instance. */
  datatype Kernel = Kernel(
    links: map<Key, Link>,
    spaces: map<string, Space>,
    dropIns: map<string, string>,
    resolvs: map<string, string>)

  const NEW_MTU: nat := 1500
  const NEW_LINK := Link(None, NEW_MTU, false, {}, false)
  const NEW_SPACE := Space(false, None, false, false)

  datatype Verb =
    | DelLink(name: string)
    | DelSpace(ns: string)
    | AddSpace(ns: string)
    | AddVeth(name: string, peer: string)
    | MoveLink(name: string, ns: string)
    | SetMtu(key: Key, mtu: nat)
    | AddAddr(key: Key, addr: Ipv4, len: nat)
    | SetUp(key: Key)
    | LoUp(ns: string)
    | AddDefaultRoute(ns: string, via: Ipv4)
    | NoV6All(ns: string)
    | NoV6Default(ns: string)
    | SetForwarding(name: string)
    | PutDropIn(file: string, text: string)
    | RmDropIn(file: string)
    | PutResolv(instance: string, text: string)
    | RmResolv(instance: string)

  function PeersOf(links: map<Key, Link>, keys: set<Key>): set<Key> {
    set k | k in keys && k in links && links[k].peer.Some? :: links[k].peer.value
  }

  /** What the verb makes of the kernel; None when the kernel refuses it. Deleting one end of a pair
      deletes the other; deleting a namespace deletes the links in it, and their peers. */
  function Apply(k: Kernel, v: Verb): Option<Kernel> {
    match v
    case DelLink(name) =>
      var key := Key(Host, name);
      if key !in k.links then None
      else Some(k.(links := k.links - ({key} + PeersOf(k.links, {key}))))
    case DelSpace(ns) =>
      if ns !in k.spaces then None
      else
        var inside := set key | key in k.links && key.at == In(ns);
        Some(k.(spaces := k.spaces - {ns}, links := k.links - (inside + PeersOf(k.links, inside))))
    case AddSpace(ns) => if ns in k.spaces then None else Some(k.(spaces := k.spaces[ns := NEW_SPACE]))
    case AddVeth(name, peer) =>
      var a, b := Key(Host, name), Key(Host, peer);
      if a in k.links || b in k.links || a == b then None
      else Some(k.(links := k.links[a := NEW_LINK.(peer := Some(b))][b := NEW_LINK.(peer := Some(a))]))
    case MoveLink(name, ns) =>
      var a, b := Key(Host, name), Key(In(ns), name);
      if a !in k.links || b in k.links || ns !in k.spaces then None
      else
        var link := k.links[a];
        var moved := (k.links - {a})[b := link];
        if link.peer.Some? && link.peer.value in moved
        then Some(k.(links := moved[link.peer.value := moved[link.peer.value].(peer := Some(b))]))
        else Some(k.(links := moved))
    case SetMtu(key, mtu) => OnLink(k, key, (l: Link) => l.(mtu := mtu))
    case AddAddr(key, addr, len) =>
      if key in k.links && (addr, len) in k.links[key].addrs then None
      else OnLink(k, key, (l: Link) => l.(addrs := l.addrs + {(addr, len)}))
    case SetUp(key) => OnLink(k, key, (l: Link) => l.(up := true))
    case SetForwarding(name) => OnLink(k, Key(Host, name), (l: Link) => l.(forwarding := true))
    case LoUp(ns) => OnSpace(k, ns, (s: Space) => s.(loUp := true))
    case NoV6All(ns) => OnSpace(k, ns, (s: Space) => s.(noV6All := true))
    case NoV6Default(ns) => OnSpace(k, ns, (s: Space) => s.(noV6Default := true))
    case AddDefaultRoute(ns, via) =>
      // The gateway must be reachable, and there must be no default route yet.
      if ns in k.spaces && k.spaces[ns].gateway.None?
         && exists key | key in k.links :: key.at == In(ns) && k.links[key].up && k.links[key].addrs != {}
      then OnSpace(k, ns, (s: Space) => s.(gateway := Some(via))) else None
    case PutDropIn(file, text) => Some(k.(dropIns := k.dropIns[file := text]))
    case RmDropIn(file) => if file in k.dropIns then Some(k.(dropIns := k.dropIns - {file})) else None
    case PutResolv(i, text) => Some(k.(resolvs := k.resolvs[i := text]))
    case RmResolv(i) => if i in k.resolvs then Some(k.(resolvs := k.resolvs - {i})) else None
  }

  function OnLink(k: Kernel, key: Key, f: Link -> Link): Option<Kernel> {
    if key in k.links then Some(k.(links := k.links[key := f(k.links[key])])) else None
  }

  function OnSpace(k: Kernel, ns: string, f: Space -> Space): Option<Kernel> {
    if ns in k.spaces then Some(k.(spaces := k.spaces[ns := f(k.spaces[ns])])) else None
  }

  // ---------- Whose what is ----------------------------------------------------

  predicate Owned(i: string, key: Key) {
    key.at == In(NetnsName(i)) || (key.at == Host && key.name in {HostVeth(i), RunnerVeth(i)})
  }

  function OwnedLinks(k: Kernel, i: string): set<Key> {
    set key | key in k.links && Owned(i, key)
  }

  /** The kernel without anything of the instance. */
  function Strip(k: Kernel, i: string): Kernel {
    Kernel(k.links - OwnedLinks(k, i), k.spaces - {NetnsName(i)}, k.dropIns - {DropInName(i)}, k.resolvs - {i})
  }

  function Only<V>(m: map<string, V>, x: string): map<string, V> {
    if x in m then map[x := m[x]] else map[]
  }

  /** Taken away are the instance's namespace with every link in it, its two ends of the pair on the host,
      its drop-in and its resolv.conf; everything else stays. */
  lemma StripExactly(k: Kernel, i: string)
    ensures forall key :: key in Strip(k, i).links <==>
      && key in k.links && key.at != In("ghars-" + i)
      && !(key.at == Host && (key.name == "ghars-" + i + "-h" || key.name == "ghars-" + i + "-r"))
    ensures forall key | key in Strip(k, i).links :: Strip(k, i).links[key] == k.links[key]
    ensures Strip(k, i).spaces == k.spaces - {"ghars-" + i} && Strip(k, i).resolvs == k.resolvs - {i}
    ensures Strip(k, i).dropIns == k.dropIns - {"ghars-" + i + ".conf"}
  {}

  /** What the instance has. */
  function View(k: Kernel, i: string): Kernel {
    Kernel(
      map key | key in OwnedLinks(k, i) :: k.links[key],
      Only(k.spaces, NetnsName(i)), Only(k.dropIns, DropInName(i)), Only(k.resolvs, i))
  }

  /** No pair crosses from one instance to another or to something foreign. */
  ghost predicate Kin(a: Key, b: Key) {
    forall i :: Owned(i, a) <==> Owned(i, b)
  }

  /** Pairs are mutual and stay in the family, links live in namespaces that exist, and a runner-side
      interface still on the host is paired with its host side. */
  ghost predicate Tidy(k: Kernel) {
    && (forall key | key in k.links && key.at.In? :: key.at.ns in k.spaces)
    && (forall key | key in k.links && k.links[key].peer.Some? ::
          var p := k.links[key].peer.value;
          p in k.links && k.links[p].peer == Some(key) && p != key && Kin(key, p))
    && (forall i | Key(Host, RunnerVeth(i)) in k.links ::
          k.links[Key(Host, RunnerVeth(i))].peer == Some(Key(Host, HostVeth(i))))
  }

  /** A verb on the instance's own things. */
  predicate OfInstance(v: Verb, i: string) {
    match v
    case DelLink(name) => name == HostVeth(i)
    case DelSpace(ns) => ns == NetnsName(i)
    case AddSpace(ns) => ns == NetnsName(i)
    case AddVeth(name, peer) => name == HostVeth(i) && peer == RunnerVeth(i)
    case MoveLink(name, ns) => name == RunnerVeth(i) && ns == NetnsName(i)
    case SetMtu(key, _) => Owned(i, key)
    case AddAddr(key, _, _) => Owned(i, key)
    case SetUp(key) => Owned(i, key)
    case SetForwarding(name) => Owned(i, Key(Host, name))
    case LoUp(ns) => ns == NetnsName(i)
    case NoV6All(ns) => ns == NetnsName(i)
    case NoV6Default(ns) => ns == NetnsName(i)
    case AddDefaultRoute(ns, _) => ns == NetnsName(i)
    case PutDropIn(file, _) => file == DropInName(i)
    case RmDropIn(file) => file == DropInName(i)
    case PutResolv(r, _) => r == i
    case RmResolv(r) => r == i
  }

  lemma OwnersDiffer(i: string, j: string, key: Key)
    requires i != j && Owned(i, key)
    ensures !Owned(j, key)
  {
    NamesAreInjective(i, j);
    NamesAreInjective(j, i);
  }

  lemma OwnedAreKin(i: string, a: Key, b: Key)
    requires Owned(i, a) && Owned(i, b)
    ensures Kin(a, b)
  {
    forall j
      ensures Owned(j, a) <==> Owned(j, b)
    {
      if j != i {
        OwnersDiffer(i, j, a);
        OwnersDiffer(i, j, b);
      }
    }
  }

  /** The links of two kernels agree, but for those of the instance. */
  predicate SameOtherLinks(a: map<Key, Link>, b: map<Key, Link>, i: string) {
    && (forall key | key in a && !Owned(i, key) :: key in b && b[key] == a[key])
    && (forall key | key in b && !Owned(i, key) :: key in a)
  }

  lemma StripIsTheRest(a: Kernel, b: Kernel, i: string)
    ensures Strip(a, i) == Strip(b, i) <==>
      && SameOtherLinks(a.links, b.links, i)
      && a.spaces - {NetnsName(i)} == b.spaces - {NetnsName(i)}
      && a.dropIns - {DropInName(i)} == b.dropIns - {DropInName(i)}
      && a.resolvs - {i} == b.resolvs - {i}
  {
    hide Owned;
    var x, y := a.links - OwnedLinks(a, i), b.links - OwnedLinks(b, i);
    assert forall key :: key in x <==> key in a.links && !Owned(i, key);
    assert forall key :: key in y <==> key in b.links && !Owned(i, key);
    if SameOtherLinks(a.links, b.links, i) {
      assert x == y;
    }
    if x == y {
      forall key | key in a.links && !Owned(i, key)
        ensures key in b.links && b.links[key] == a.links[key]
      {
        assert key in x && key in y && x[key] == y[key];
      }
      assert forall key | key in b.links && !Owned(i, key) :: key in y;
    }
  }

  /** Whoever works on one instance's things leaves the rest as it is: anything that keeps the stripped
      kernel keeps every other instance's view. */
  lemma OtherInstancesUntouched(a: Kernel, b: Kernel, i: string, j: string)
    requires i != j && Strip(a, i) == Strip(b, i)
    ensures View(a, j) == View(b, j)
  {
    hide Strip, Owned, NetnsName, DropInName, HostVeth, RunnerVeth, Only;
    StripIsTheRest(a, b, i);
    NamesAreInjective(i, j);
    SameEntries(a.spaces, b.spaces, NetnsName(i), NetnsName(j));
    SameEntries(a.dropIns, b.dropIns, DropInName(i), DropInName(j));
    SameEntries(a.resolvs, b.resolvs, i, j);
    OtherLinksUntouched(a, b, i, j);
  }

  lemma OtherLinksUntouched(a: Kernel, b: Kernel, i: string, j: string)
    requires i != j && SameOtherLinks(a.links, b.links, i)
    ensures (map key | key in OwnedLinks(a, j) :: a.links[key]) == (map key | key in OwnedLinks(b, j) :: b.links[key])
  {
    hide Owned;
    forall key | Owned(j, key)
      ensures !Owned(i, key)
    {
      OwnersDiffer(j, i, key);
    }
    assert OwnedLinks(a, j) == OwnedLinks(b, j);
  }

  lemma SameEntries<V>(a: map<string, V>, b: map<string, V>, x: string, y: string)
    requires a - {x} == b - {x} && x != y
    ensures Only(a, y) == Only(b, y)
  {
    assert y in a - {x} <==> y in b - {x};
    assert y in a ==> (a - {x})[y] == (b - {x})[y];
  }

  // ---------- What every verb keeps --------------------------------------------

  lemma PeersStayInFamily(k: Kernel, i: string, keys: set<Key>)
    requires Tidy(k) && forall key | key in keys :: Owned(i, key)
    ensures forall key | key in PeersOf(k.links, keys) :: Owned(i, key)
  {
    hide Owned;
  }

  lemma DeletionKeepsTheRest(links: map<Key, Link>, gone: set<Key>, i: string)
    requires forall key | key in gone :: Owned(i, key)
    ensures SameOtherLinks(links, links - gone, i)
  {
    hide Owned;
  }

  lemma UpdateKeepsTheRest(links: map<Key, Link>, key: Key, link: Link, i: string)
    requires Owned(i, key)
    ensures SameOtherLinks(links, links[key := link], i)
  {
    hide Owned;
  }

  lemma RestTrans(a: map<Key, Link>, b: map<Key, Link>, c: map<Key, Link>, i: string)
    requires SameOtherLinks(a, b, i) && SameOtherLinks(b, c, i)
    ensures SameOtherLinks(a, c, i)
  {
    hide Owned;
  }

  lemma PairIsOwned(i: string)
    ensures Owned(i, Key(Host, HostVeth(i))) && Owned(i, Key(Host, RunnerVeth(i)))
    ensures Owned(i, Key(In(NetnsName(i)), RunnerVeth(i)))
    ensures Key(Host, HostVeth(i)) != Key(Host, RunnerVeth(i))
  {
    NamesAreInjective(i, i);
  }

  /** The verbs that touch links, one shape after another. */
  lemma LinksKeepTheRest(k: Kernel, v: Verb, i: string)
    requires Tidy(k) && OfInstance(v, i) && Apply(k, v).Some?
    ensures SameOtherLinks(k.links, Apply(k, v).value.links, i)
  {
    hide Owned, SameOtherLinks, NetnsName, HostVeth, RunnerVeth, DropInName, Kin, Tidy, PeersOf;
    var after := Apply(k, v).value;
    PairIsOwned(i);
    SameLinks(k.links, i);
    match v {
      case DelLink(name) =>
        PeersStayInFamily(k, i, {Key(Host, name)});
        DeletionKeepsTheRest(k.links, {Key(Host, name)} + PeersOf(k.links, {Key(Host, name)}), i);
      case DelSpace(ns) =>
        var inside := set key | key in k.links && key.at == In(ns);
        InsideIsOwned(i, inside);
        PeersStayInFamily(k, i, inside);
        DeletionKeepsTheRest(k.links, inside + PeersOf(k.links, inside), i);
      case AddVeth(name, peer) =>
        var a, b := Key(Host, name), Key(Host, peer);
        UpdateKeepsTheRest(k.links, a, NEW_LINK.(peer := Some(b)), i);
        UpdateKeepsTheRest(k.links[a := NEW_LINK.(peer := Some(b))], b, NEW_LINK.(peer := Some(a)), i);
        RestTrans(k.links, k.links[a := NEW_LINK.(peer := Some(b))], after.links, i);
      case MoveLink(name, ns) => MoveKeepsTheRest(k, i);
      case SetMtu(key, mtu) => UpdateKeepsTheRest(k.links, key, k.links[key].(mtu := mtu), i);
      case AddAddr(key, addr, len) => UpdateKeepsTheRest(k.links, key, k.links[key].(addrs := k.links[key].addrs + {(addr, len)}), i);
      case SetUp(key) => UpdateKeepsTheRest(k.links, key, k.links[key].(up := true), i);
      case SetForwarding(name) => UpdateKeepsTheRest(k.links, Key(Host, name), k.links[Key(Host, name)].(forwarding := true), i);
      case _ =>
    }
  }

  lemma SameLinks(links: map<Key, Link>, i: string)
    ensures SameOtherLinks(links, links, i)
  {}

  lemma InsideIsOwned(i: string, inside: set<Key>)
    requires forall key | key in inside :: key.at == In(NetnsName(i))
    ensures forall key | key in inside :: Owned(i, key)
  {}

  lemma MoveKeepsTheRest(k: Kernel, i: string)
    requires Tidy(k) && Apply(k, MoveLink(RunnerVeth(i), NetnsName(i))).Some?
    ensures SameOtherLinks(k.links, Apply(k, MoveLink(RunnerVeth(i), NetnsName(i))).value.links, i)
  {
    hide Owned, NetnsName, HostVeth, RunnerVeth;
    PairIsOwned(i);
    MoveStaysInFamily(k, i);
  }

  /** A verb on the instance's own things changes nothing else. */
  lemma VerbKeepsTheRest(k: Kernel, v: Verb, i: string)
    requires Tidy(k) && OfInstance(v, i) && Apply(k, v).Some?
    ensures Strip(Apply(k, v).value, i) == Strip(k, i)
  {
    hide Strip, SameOtherLinks, Tidy, OfInstance, Apply, NetnsName, DropInName;
    LinksKeepTheRest(k, v, i);
    SpacesKeepTheRest(k, v, i);
    FilesKeepTheRest(k, v, i);
    StripIsTheRest(k, Apply(k, v).value, i);
  }

  lemma SpacesKeepTheRest(k: Kernel, v: Verb, i: string)
    requires OfInstance(v, i) && Apply(k, v).Some?
    ensures Apply(k, v).value.spaces - {NetnsName(i)} == k.spaces - {NetnsName(i)}
  {
    hide Owned, NetnsName, HostVeth, RunnerVeth, DropInName, PeersOf;
  }

  lemma FilesKeepTheRest(k: Kernel, v: Verb, i: string)
    requires OfInstance(v, i) && Apply(k, v).Some?
    ensures Apply(k, v).value.dropIns - {DropInName(i)} == k.dropIns - {DropInName(i)}
    ensures Apply(k, v).value.resolvs - {i} == k.resolvs - {i}
  {
    hide Owned, NetnsName, HostVeth, RunnerVeth, DropInName, PeersOf;
  }

  lemma MoveStaysInFamily(k: Kernel, i: string)
    requires Tidy(k) && Key(Host, RunnerVeth(i)) in k.links
    ensures k.links[Key(Host, RunnerVeth(i))].peer == Some(Key(Host, HostVeth(i)))
  {}

  /** Same links up to everything but the pairing, same namespaces or more. */
  predicate SamePairing(a: Kernel, b: Kernel) {
    && a.links.Keys == b.links.Keys && a.spaces.Keys <= b.spaces.Keys
    && forall key | key in a.links :: b.links[key].peer == a.links[key].peer
  }

  lemma SamePairingIsTidy(a: Kernel, b: Kernel)
    requires Tidy(a) && SamePairing(a, b)
    ensures Tidy(b)
  {
    hide Kin;
  }

  /** Deleting links together with their peers. */
  lemma DeletionIsTidy(a: Kernel, b: Kernel, keys: set<Key>)
    requires Tidy(a) && b.links == a.links - (keys + PeersOf(a.links, keys))
    requires forall key | key in b.links && key.at.In? :: key.at.ns in b.spaces
    ensures Tidy(b)
  {
    hide Kin;
    var gone := keys + PeersOf(a.links, keys);
    forall key | key in b.links && b.links[key].peer.Some?
      ensures b.links[key].peer.value in b.links
    {
      PeerGoesToo(a, keys, key);
    }
  }

  /** One end is deleted, or the peer of a deleted end, only if the other is. */
  lemma PeerGoesToo(k: Kernel, keys: set<Key>, key: Key)
    requires Tidy(k) && key in k.links && k.links[key].peer.Some?
    ensures var p := k.links[key].peer.value;
      && p in k.links
      && (p in keys ==> key in PeersOf(k.links, keys))
      && (p in PeersOf(k.links, keys) ==> key in keys)
  {
    hide Kin;
    var p := k.links[key].peer.value;
    assert k.links[p].peer == Some(key);
    if p in PeersOf(k.links, keys) {
      var q :| q in keys && q in k.links && k.links[q].peer == Some(p);
      assert k.links[p].peer == Some(q);
    }
  }

  lemma VethIsTidy(k: Kernel, i: string)
    requires Tidy(k) && Apply(k, AddVeth(HostVeth(i), RunnerVeth(i))).Some?
    ensures Tidy(Apply(k, AddVeth(HostVeth(i), RunnerVeth(i))).value)
  {
    hide Kin, Owned;
    var a, b := Key(Host, HostVeth(i)), Key(Host, RunnerVeth(i));
    PairIsOwned(i);
    OwnedAreKin(i, a, b);
    OwnedAreKin(i, b, a);
    forall j
      ensures HostVeth(i) != RunnerVeth(j) && (RunnerVeth(i) == RunnerVeth(j) ==> i == j)
    {
      NamesAreInjective(i, j);
    }
    hide HostVeth, RunnerVeth;
    var after := Apply(k, AddVeth(HostVeth(i), RunnerVeth(i))).value;
    forall key | key in after.links && after.links[key].peer.Some?
      ensures after.links[key].peer.value in after.links && after.links[after.links[key].peer.value].peer == Some(key)
      ensures after.links[key].peer.value != key && Kin(key, after.links[key].peer.value)
    {}
  }

  lemma MoveIsTidy(k: Kernel, i: string)
    requires Tidy(k) && Apply(k, MoveLink(RunnerVeth(i), NetnsName(i))).Some?
    ensures Tidy(Apply(k, MoveLink(RunnerVeth(i), NetnsName(i))).value)
  {
    hide Kin, Owned;
    var a, b, p := Key(Host, RunnerVeth(i)), Key(In(NetnsName(i)), RunnerVeth(i)), Key(Host, HostVeth(i));
    PairIsOwned(i);
    OwnedAreKin(i, p, b);
    OwnedAreKin(i, b, p);
    MoveStaysInFamily(k, i);
    forall j
      ensures HostVeth(i) != RunnerVeth(j) && (RunnerVeth(i) == RunnerVeth(j) ==> i == j)
    {
      NamesAreInjective(i, j);
    }
    hide HostVeth, RunnerVeth, NetnsName;
    var after := Apply(k, MoveLink(RunnerVeth(i), NetnsName(i))).value;
    forall key | key in after.links && after.links[key].peer.Some?
      ensures after.links[key].peer.value in after.links && after.links[after.links[key].peer.value].peer == Some(key)
      ensures after.links[key].peer.value != key && Kin(key, after.links[key].peer.value)
    {}
  }

  /** Every verb on an instance's things keeps the kernel tidy. */
  lemma VerbKeepsTidy(k: Kernel, v: Verb, i: string)
    requires Tidy(k) && OfInstance(v, i) && Apply(k, v).Some?
    ensures Tidy(Apply(k, v).value)
  {
    hide Tidy, Owned, NetnsName, HostVeth, RunnerVeth, DropInName, PeersOf, SamePairing;
    var after := Apply(k, v).value;
    match v {
      case DelLink(name) =>
        LinksAreInSpaces(k);
        DeletionIsTidy(k, after, {Key(Host, name)});
      case DelSpace(ns) =>
        LinksAreInSpaces(k);
        DeletionIsTidy(k, after, set key | key in k.links && key.at == In(ns));
      case AddVeth(name, peer) => VethIsTidy(k, i);
      case MoveLink(name, ns) => MoveIsTidy(k, i);
      case _ =>
        OtherVerbsKeepPairs(k, v);
        SamePairingIsTidy(k, after);
    }
  }

  lemma LinksAreInSpaces(k: Kernel)
    requires Tidy(k)
    ensures forall key | key in k.links && key.at.In? :: key.at.ns in k.spaces
  {}

  lemma OtherVerbsKeepPairs(k: Kernel, v: Verb)
    requires Apply(k, v).Some? && !v.DelLink? && !v.DelSpace? && !v.AddVeth? && !v.MoveLink?
    ensures SamePairing(k, Apply(k, v).value)
  {
    hide PeersOf;
  }

  /** A host without any of this is tidy. */
  lemma BareIsTidy(dropIns: map<string, string>, resolvs: map<string, string>)
    ensures Tidy(Kernel(map[], map[], dropIns, resolvs))
  {}
}
