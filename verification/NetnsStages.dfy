/** The kernel verbs of a namespace setup, one after another: what each has added. */
module NetnsStages {
  import opened Options
  import opened NetnsNames
  import opened NetnsKernel

  const LEN: nat := 30

  /** Everything a setup's kernel verbs are made from. */
  datatype Plan = Plan(instance: string, host: Ipv4, runner: Ipv4, mtu: nat) {
    function Ns(): string { NetnsName(instance) }
    function HostKey(): Key { Key(Host, HostVeth(instance)) }
    function Crossing(): Key { Key(Host, RunnerVeth(instance)) }
    function RunnerKey(): Key { Key(In(Ns()), RunnerVeth(instance)) }
  }

  const STAGES: nat := 14

  function VerbAt(p: Plan, n: nat): Verb
    requires n < STAGES
  {
    match n
    case 0 => AddSpace(p.Ns())
    case 1 => AddVeth(HostVeth(p.instance), RunnerVeth(p.instance))
    case 2 => MoveLink(RunnerVeth(p.instance), p.Ns())
    case 3 => SetMtu(p.HostKey(), p.mtu)
    case 4 => SetMtu(p.RunnerKey(), p.mtu)
    case 5 => AddAddr(p.HostKey(), p.host, LEN)
    case 6 => AddAddr(p.RunnerKey(), p.runner, LEN)
    case 7 => SetUp(p.HostKey())
    case 8 => SetUp(p.RunnerKey())
    case 9 => LoUp(p.Ns())
    case 10 => AddDefaultRoute(p.Ns(), p.host)
    case 11 => NoV6All(p.Ns())
    case 12 => NoV6Default(p.Ns())
    case _ => SetForwarding(HostVeth(p.instance))
  }

  /** The host side after `n` verbs. */
  function HostLink(p: Plan, n: nat): Link {
    Link(Some(if n >= 3 then p.RunnerKey() else p.Crossing()), if n >= 4 then p.mtu else NEW_MTU, n >= 8,
         if n >= 6 then {(p.host, LEN)} else {}, n >= 14)
  }

  function RunnerLink(p: Plan, n: nat): Link {
    Link(Some(p.HostKey()), if n >= 5 then p.mtu else NEW_MTU, n >= 9, if n >= 7 then {(p.runner, LEN)} else {}, false)
  }

  function SpaceAt(n: nat, host: Ipv4): Space {
    Space(n >= 10, if n >= 11 then Some(host) else None, n >= 12, n >= 13)
  }

  /** The kernel after `n` verbs, from `k`. */
  function Stage(k: Kernel, p: Plan, n: nat): Kernel {
    k.(spaces := if n >= 1 then k.spaces[p.Ns() := SpaceAt(n, p.host)] else k.spaces,
       links := if n >= 3 then k.links[p.HostKey() := HostLink(p, n)][p.RunnerKey() := RunnerLink(p, n)]
                else if n == 2 then k.links[p.HostKey() := HostLink(p, n)][p.Crossing() := RunnerLink(p, n)]
                else k.links)
  }

  /** Nothing is in the way of the verbs that create. */
  predicate Free(k: Kernel, p: Plan) {
    p.Ns() !in k.spaces && p.HostKey() !in k.links && p.Crossing() !in k.links
  }

  predicate NothingInside(k: Kernel, ns: string) {
    forall key | key in k.links :: key.at != In(ns)
  }

  lemma KeysDiffer(p: Plan)
    ensures p.HostKey() != p.Crossing() && p.HostKey() != p.RunnerKey() && p.Crossing() != p.RunnerKey()
  {
    NamesAreInjective(p.instance, p.instance);
  }

  /** The first two verbs succeed exactly when nothing is in their way. */
  lemma CreatingStage(k: Kernel, p: Plan, n: nat)
    requires n < 2
    ensures Apply(Stage(k, p, n), VerbAt(p, n)) ==
      if (if n == 0 then p.Ns() in k.spaces else p.HostKey() in k.links || p.Crossing() in k.links)
      then None else Some(Stage(k, p, n + 1))
  {
    hide NetnsName, HostVeth, RunnerVeth;
    KeysDiffer(p);
  }

  /** Moving the runner's end. */
  lemma MovingStage(k: Kernel, p: Plan)
    requires Free(k, p) && NothingInside(k, p.Ns())
    ensures Apply(Stage(k, p, 2), VerbAt(p, 2)) == Some(Stage(k, p, 3))
  {
    hide NetnsName, HostVeth, RunnerVeth;
    KeysDiffer(p);
    var a, b := Stage(k, p, 2), Stage(k, p, 3);
    var moved := (a.links - {p.Crossing()})[p.RunnerKey() := a.links[p.Crossing()]];
    assert moved[p.HostKey() := moved[p.HostKey()].(peer := Some(p.RunnerKey()))] == b.links;
  }

  lemma LinksOfStage(k: Kernel, p: Plan, n: nat)
    requires 3 <= n <= STAGES
    ensures var a := Stage(k, p, n);
      && p.HostKey() in a.links && a.links[p.HostKey()] == HostLink(p, n)
      && p.RunnerKey() in a.links && a.links[p.RunnerKey()] == RunnerLink(p, n)
      && p.Ns() in a.spaces && a.spaces[p.Ns()] == SpaceAt(n, p.host)
  {
    hide NetnsName, HostVeth, RunnerVeth, HostLink, RunnerLink;
    KeysDiffer(p);
  }

  /** Changing one of the three things a stage consists of. */
  lemma StageByParts(k: Kernel, p: Plan, n: nat)
    requires 3 <= n < STAGES
    ensures var a, b := Stage(k, p, n), Stage(k, p, n + 1);
      && (RunnerLink(p, n + 1) == RunnerLink(p, n) ==> b.links == a.links[p.HostKey() := HostLink(p, n + 1)])
      && (HostLink(p, n + 1) == HostLink(p, n) ==> b.links == a.links[p.RunnerKey() := RunnerLink(p, n + 1)])
      && b.spaces == a.spaces[p.Ns() := SpaceAt(n + 1, p.host)]
  {
    hide NetnsName, HostVeth, RunnerVeth, HostLink, RunnerLink, SpaceAt;
    KeysDiffer(p);
  }

  /** From then on every verb succeeds. */
  lemma SettingStage(k: Kernel, p: Plan, n: nat)
    requires 3 <= n < STAGES
    ensures Apply(Stage(k, p, n), VerbAt(p, n)) == Some(Stage(k, p, n + 1))
  {
    hide NetnsName, HostVeth, RunnerVeth, Stage;
    KeysDiffer(p);
    LinksOfStage(k, p, n);
    StageByParts(k, p, n);
    StageFiles(k, p, n);
    var a, b := Stage(k, p, n), Stage(k, p, n + 1);
    if n in {3, 5, 7, 13} {
      HostSetting(a, b, p, n);
    } else if n in {4, 6, 8} {
      RunnerSetting(a, b, p, n);
    } else {
      SpaceSetting(a, b, p, n);
    }
  }

  lemma StageFiles(k: Kernel, p: Plan, n: nat)
    requires n < STAGES
    ensures Stage(k, p, n).dropIns == Stage(k, p, n + 1).dropIns == k.dropIns
    ensures Stage(k, p, n).resolvs == Stage(k, p, n + 1).resolvs == k.resolvs
  {}

  predicate Before(a: Kernel, b: Kernel, p: Plan, n: nat) {
    && p.HostKey() in a.links && a.links[p.HostKey()] == HostLink(p, n)
    && p.RunnerKey() in a.links && a.links[p.RunnerKey()] == RunnerLink(p, n)
    && p.Ns() in a.spaces && a.spaces[p.Ns()] == SpaceAt(n, p.host)
    && b.dropIns == a.dropIns && b.resolvs == a.resolvs
    && b.spaces == a.spaces[p.Ns() := SpaceAt(n + 1, p.host)]
  }

  lemma HostSetting(a: Kernel, b: Kernel, p: Plan, n: nat)
    requires n in {3, 5, 7, 13} && Before(a, b, p, n) && b.links == a.links[p.HostKey() := HostLink(p, n + 1)]
    ensures Apply(a, VerbAt(p, n)) == Some(b)
  {
    hide NetnsName, HostVeth, RunnerVeth, RunnerLink;
    assert SpaceAt(n + 1, p.host) == SpaceAt(n, p.host);
    assert b.spaces == a.spaces;
    assert {} + {(p.host, LEN)} == {(p.host, LEN)};
  }

  lemma RunnerSetting(a: Kernel, b: Kernel, p: Plan, n: nat)
    requires n in {4, 6, 8} && Before(a, b, p, n) && b.links == a.links[p.RunnerKey() := RunnerLink(p, n + 1)]
    ensures Apply(a, VerbAt(p, n)) == Some(b)
  {
    hide NetnsName, HostVeth, RunnerVeth, HostLink;
    assert SpaceAt(n + 1, p.host) == SpaceAt(n, p.host);
    assert b.spaces == a.spaces;
    assert {} + {(p.runner, LEN)} == {(p.runner, LEN)};
  }

  lemma SpaceSetting(a: Kernel, b: Kernel, p: Plan, n: nat)
    requires 9 <= n <= 12 && Before(a, b, p, n) && b.links == a.links[p.RunnerKey() := RunnerLink(p, n + 1)]
    ensures Apply(a, VerbAt(p, n)) == Some(b)
  {
    hide NetnsName, HostVeth, RunnerVeth, HostLink;
    assert RunnerLink(p, n + 1) == RunnerLink(p, n);
    assert b.links == a.links;
    assert a.links[p.RunnerKey()].up && (p.runner, LEN) in a.links[p.RunnerKey()].addrs;
  }

  lemma StagesAreOfInstance(p: Plan, n: nat)
    requires n < STAGES
    ensures OfInstance(VerbAt(p, n), p.instance)
  {
    hide NetnsName, HostVeth, RunnerVeth;
  }
}
