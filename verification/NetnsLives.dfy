/** Whole lives of an instance's network namespace: any sequence of setups and teardowns, each of which may
    be cut short in any state, and what a setup or a teardown then makes of it. */
module NetnsLives {
  import opened Options
  import opened NetnsNames
  import opened NetnsKernel
  import opened NetnsStages
  import opened Netns

  /** What may happen to one instance's namespace: setups and teardowns, each cut short in one of the
      states it goes through, or not. */
  datatype Event =
    | SetupEvent(subnet: IpNet, dns: Dns, detected: Option<nat>, config: Option<Dns>, cut: Option<nat>)
    | TeardownEvent(config: Option<Dns>, cut: Option<nat>)

  /** What came of one event: the states it went through and the calls it made. */
  datatype Life = Life(states: seq<Kernel>, calls: seq<Call>)

  function StateBefore(k: Kernel, states: seq<Kernel>, n: nat): Kernel
    requires n <= |states|
  {
    if n == 0 then k else states[n - 1]
  }

  /** These states come one from the other, the first from `k`, by single verbs on the instance's things. */
  ghost predicate Walk(k: Kernel, states: seq<Kernel>, i: string) {
    forall n | 0 <= n < |states| :: OneVerb(StateBefore(k, states, n), states[n], i)
  }

  function EndOf(k: Kernel, states: seq<Kernel>): Kernel {
    if states == [] then k else states[|states| - 1]
  }

  /** A setup from `k` went through these states and made these calls, its verbs in their turn: it reached
      the configured state, or was rolled back. */
  ghost predicate SetupRan(i: string, subnet: IpNet, dns: Dns, detected: Option<nat>, config: Option<Dns>, k: Kernel, life: Life) {
    && Walk(k, life.states, i)
    && var end := EndOf(k, life.states);
    || (Usable(subnet, dns) && end == Configured(k, PlanOf(i, subnet, detected), dns) && InPlace(end, i, subnet.addr, detected, dns)
        && Proceeded(life.calls, i, subnet, dns, detected, true))
    || (RolledBack(life.calls, k, end, i, Reloads(config))
        && Proceeded(FirstCalls(life.calls, |TeardownSteps(Reloads(config))|), i, subnet, dns, detected, false))
  }

  /** A teardown from `k` went through these states and made these calls. */
  ghost predicate TeardownRan(i: string, config: Option<Dns>, k: Kernel, life: Life) {
    && Walk(k, life.states, i)
    && exists firstErr :: Recorded(life.calls, TeardownSteps(Reloads(config)), firstErr, i, k, EndOf(k, life.states))
  }

  ghost predicate Happened(event: Event, i: string, k: Kernel, life: Life) {
    match event
    case SetupEvent(subnet, dns, detected, config, cut) => SetupRan(i, subnet, dns, detected, config, k, life)
    case TeardownEvent(config, cut) => TeardownRan(i, config, k, life)
  }

  predicate IsCut(event: Event, life: Life) {
    event.cut.Some? && event.cut.value < |life.states|
  }

  /** Where it is left. */
  function Left(event: Event, k: Kernel, life: Life): Kernel {
    if IsCut(event, life) then life.states[event.cut.value] else EndOf(k, life.states)
  }

  function KernelAfter(k0: Kernel, events: seq<Event>, lives: seq<Life>): Kernel
    requires |events| == |lives|
  {
    if events == [] then k0
    else
      var n := |events| - 1;
      Left(events[n], KernelAfter(k0, events[..n], lives[..n]), lives[n])
  }

  /** Each of the events happened, from where the one before it was left. */
  ghost predicate Lived(k0: Kernel, i: string, events: seq<Event>, lives: seq<Life>) {
    && |events| == |lives|
    && forall n | 0 <= n < |events| :: Happened(events[n], i, KernelAfter(k0, events[..n], lives[..n]), lives[n])
  }

  /** All states and all calls of the events, the state each cut one is found in included. */
  function AllStates(events: seq<Event>, lives: seq<Life>): seq<Kernel>
    requires |events| == |lives|
  {
    if events == [] then []
    else
      var n := |events| - 1;
      AllStates(events[..n], lives[..n]) + lives[n].states
      + if IsCut(events[n], lives[n]) then [lives[n].states[events[n].cut.value]] else []
  }

  function AllCalls(lives: seq<Life>): seq<Call> {
    if lives == [] then [] else AllCalls(lives[..|lives| - 1]) + lives[|lives| - 1].calls
  }

  lemma LivedMore(k0: Kernel, i: string, events: seq<Event>, n: nat, lives: seq<Life>, life: Life)
    requires n < |events| && Lived(k0, i, events[..n], lives)
    requires Happened(events[n], i, KernelAfter(k0, events[..n], lives), life)
    ensures Lived(k0, i, events[..n + 1], lives + [life])
    ensures KernelAfter(k0, events[..n + 1], lives + [life]) == Left(events[n], KernelAfter(k0, events[..n], lives), life)
    ensures AllStates(events[..n + 1], lives + [life]) == AllStates(events[..n], lives) + life.states
      + if IsCut(events[n], life) then [life.states[events[n].cut.value]] else []
    ensures AllCalls(lives + [life]) == AllCalls(lives) + life.calls
  {
    hide Happened, Left, IsCut;
    var more, all := events[..n + 1], lives + [life];
    assert more[..n] == events[..n] && all[..n] == lives;
    forall j | 0 <= j < |more|
      ensures Happened(more[j], i, KernelAfter(k0, more[..j], all[..j]), all[j])
    {
      if j < n {
        assert more[..j] == events[..n][..j] && all[..j] == lives[..j];
        assert Happened(events[..n][j], i, KernelAfter(k0, events[..n][..j], lives[..j]), lives[j]);
      }
    }
  }

  lemma WalkBefore(k: Kernel, states: seq<Kernel>, i: string)
    requires Walk(k, states, i) && states != []
    ensures var n := |states| - 1;
      Walk(k, states[..n], i) && OneVerb(EndOf(k, states[..n]), states[n], i)
  {
    hide OneVerb;
    var n := |states| - 1;
    var first := states[..n];
    forall j | 0 <= j < n
      ensures OneVerb(StateBefore(k, first, j), first[j], i)
    {
      assert StateBefore(k, first, j) == StateBefore(k, states, j);
    }
    assert StateBefore(k, states, n) == EndOf(k, first);
  }

  lemma {:induction false} WalkIsFramed(k: Kernel, states: seq<Kernel>, i: string)
    requires Tidy(k) && Walk(k, states, i)
    ensures Framed(k, EndOf(k, states), i) && forall n | 0 <= n < |states| :: Framed(k, states[n], i)
  {
    hide Framed, OneVerb, Tidy;
    if states == [] {
      FramedSelf(k, i);
    } else {
      var n := |states| - 1;
      WalkBefore(k, states, i);
      WalkIsFramed(k, states[..n], i);
      var before := EndOf(k, states[..n]);
      FramedMeans(k, before, i);
      OneVerbIsFramed(before, states[n], i);
      FramedTrans(k, before, states[n], i);
      assert forall j | 0 <= j < n :: states[..n][j] == states[j];
    }
  }

  lemma OneVerbIsFramed(a: Kernel, b: Kernel, i: string)
    requires Tidy(a) && OneVerb(a, b, i)
    ensures Framed(a, b, i)
  {
    hide Tidy, Strip, OfInstance, Apply, Framed;
    var v :| OfInstance(v, i) && Apply(a, v) == Some(b);
    VerbIsFramed(a, v, i);
  }

  lemma LeftIsFramed(event: Event, i: string, k: Kernel, life: Life)
    requires Tidy(k) && Happened(event, i, k, life)
    ensures Framed(k, Left(event, k, life), i)
  {
    hide Framed, Walk, Tidy, RolledBack, Recorded, Configured, InPlace;
    WalkIsFramed(k, life.states, i);
  }

  /** Whatever happened to the instance, and wherever it was cut short, everything but its own things is
      as before, and the kernel is tidy. */
  lemma {:induction false} LivedIsFramed(k0: Kernel, i: string, events: seq<Event>, lives: seq<Life>)
    requires Tidy(k0) && Lived(k0, i, events, lives)
    ensures Framed(k0, KernelAfter(k0, events, lives), i)
  {
    hide Framed, Tidy, Happened, Left;
    if events == [] {
      FramedSelf(k0, i);
    } else {
      var n := |events| - 1;
      LivedBefore(k0, i, events, lives, n);
      LivedIsFramed(k0, i, events[..n], lives[..n]);
      var before := KernelAfter(k0, events[..n], lives[..n]);
      FramedMeans(k0, before, i);
      LeftIsFramed(events[n], i, before, lives[n]);
      FramedTrans(k0, before, Left(events[n], before, lives[n]), i);
    }
  }

  lemma LivedBefore(k0: Kernel, i: string, events: seq<Event>, lives: seq<Life>, n: nat)
    requires Lived(k0, i, events, lives) && n <= |events|
    ensures Lived(k0, i, events[..n], lives[..n])
  {
    hide Happened, KernelAfter;
    forall j | 0 <= j < n
      ensures Happened(events[..n][j], i, KernelAfter(k0, events[..n][..j], lives[..n][..j]), lives[..n][j])
    {
      assert events[..n][..j] == events[..j] && lives[..n][..j] == lives[..j];
      assert Happened(events[j], i, KernelAfter(k0, events[..j], lives[..j]), lives[j]);
    }
  }

  lemma StepsAreWalk(history: seq<Kernel>, start: nat, i: string)
    requires 0 < start <= |history| && Steps(history, start, i)
    ensures Walk(history[start - 1], history[start..], i)
    ensures EndOf(history[start - 1], history[start..]) == history[|history| - 1]
  {
    hide OneVerb;
    var states := history[start..];
    forall n | 0 <= n < |states|
      ensures OneVerb(StateBefore(history[start - 1], states, n), states[n], i)
    {
      assert OneVerb(history[start + n - 1], history[start + n], i);
    }
  }

  lemma CalmIsWalk(host: Host, k0: Kernel, i: string, start: nat)
    requires host.Calm(k0, i, start) && 0 < start && host.history[start - 1] == k0
    ensures Walk(k0, host.history[start..], i) && EndOf(k0, host.history[start..]) == host.k
  {
    hide Framed, Steps, Walk, EndOf;
    StepsAreWalk(host.history, start, i);
  }

  /** The last calls of a log are the last of its new ones, if there are enough. */
  lemma LastOfNew(log: seq<Call>, start: nat, k0: Kernel, k: Kernel, i: string, reloads: bool)
    requires RolledBack(log, k0, k, i, reloads) && start + |TeardownSteps(reloads)| <= |log|
    ensures RolledBack(log[start..], k0, k, i, reloads)
  {
    hide Recorded, AllSucceeded, AllGone, Strip, TeardownSteps;
    var n := |TeardownSteps(reloads)|;
    assert LastCalls(log[start..], n) == LastCalls(log, n);
  }

  /** A setup, as an event. */
  method RunSetup(host: Host, i: string, subnet: IpNet, dns: Dns, detected: Option<nat>, config: Option<Dns>)
      returns (ok: bool, ghost life: Life)
    requires host.Valid() && Tidy(host.k)
    modifies host
    ensures host.Valid() && host.history == old(host.history) + life.states && host.log == old(host.log) + life.calls
    ensures host.k == EndOf(old(host.k), life.states) && SetupRan(i, subnet, dns, detected, config, old(host.k), life)
    ensures ok ==> Usable(subnet, dns) && host.k == Configured(old(host.k), PlanOf(i, subnet, detected), dns)
    ensures ok ==> InPlace(host.k, i, subnet.addr, detected, dns)
    ensures !ok ==> RolledBack(life.calls, old(host.k), host.k, i, Reloads(config))
  {
    hide Tidy, Configured, InPlace, Strip, Framed, Recorded, RolledBack, TeardownSteps, Walk, EndOf, Steps, Proceeded;
    ghost var k0, start, asked := host.k, |host.history|, |host.log|;
    ok := Setup(host, i, subnet, dns, detected, config);
    CalmIsTidy(host, k0, i, start);
    CalmIsWalk(host, k0, i, start);
    life := Life(host.history[start..], host.log[asked..]);
    assert FirstCalls(life.calls, 0) == life.calls;
    if !ok { LastOfNew(host.log, asked, k0, host.k, i, Reloads(config)); }
  }

  /** A teardown, as an event. */
  method RunTeardown(host: Host, i: string, config: Option<Dns>) returns (firstErr: Option<TeardownStep>, ghost life: Life)
    requires host.Valid() && Tidy(host.k)
    modifies host
    ensures host.Valid() && host.history == old(host.history) + life.states && host.log == old(host.log) + life.calls
    ensures host.k == EndOf(old(host.k), life.states) && TeardownRan(i, config, old(host.k), life)
    ensures Recorded(life.calls, TeardownSteps(Reloads(config)), firstErr, i, old(host.k), host.k)
    ensures AllSucceeded(life.calls) ==> AllGone(life.calls)
    ensures AllGone(life.calls) ==> host.k == Strip(old(host.k), i)
  {
    hide Tidy, Strip, Framed, Recorded, TeardownSteps, Walk, EndOf, Steps, AllSucceeded, AllGone;
    ghost var k0, start, calls := host.k, |host.history|, [];
    firstErr, calls := TeardownInner(host, i, config);
    CalmIsTidy(host, k0, i, start);
    CalmIsWalk(host, k0, i, start);
    life := Life(host.history[start..], calls);
  }

  method Happen(host: Host, i: string, event: Event) returns (ghost life: Life)
    requires host.Valid() && Tidy(host.k)
    modifies host
    ensures host.Valid() && Happened(event, i, old(host.k), life) && host.k == Left(event, old(host.k), life)
    ensures host.history == old(host.history) + life.states + if IsCut(event, life) then [host.k] else []
    ensures host.log == old(host.log) + life.calls
  {
    hide Tidy, Configured, InPlace, Strip, Framed, Recorded, RolledBack, AllSucceeded, AllGone, TeardownSteps, SetupRan, TeardownRan, EndOf;
    var start := |host.history|;
    match event {
      case SetupEvent(subnet, dns, detected, config, cut) =>
        var ok;
        ok, life := RunSetup(host, i, subnet, dns, detected, config);
      case TeardownEvent(config, cut) =>
        var ignored;
        ignored, life := RunTeardown(host, i, config);
    }
    if event.cut.Some? && start + event.cut.value < |host.history| {
      host.Crash(start + event.cut.value);
    }
  }

  /** All of the events, one after another; what the host has been through since is exactly theirs. */
  method Live(host: Host, i: string, events: seq<Event>) returns (ghost lives: seq<Life>)
    requires host.Valid() && Tidy(host.k)
    modifies host
    ensures host.Valid() && Lived(old(host.k), i, events, lives) && host.k == KernelAfter(old(host.k), events, lives)
    ensures host.history == old(host.history) + AllStates(events, lives) && host.log == old(host.log) + AllCalls(lives)
  {
    hide Tidy, Framed, Happened, Left, IsCut, Lived, KernelAfter, AllStates, AllCalls;
    ghost var k0, history, log := host.k, host.history, host.log;
    lives := [];
    NothingLived(k0, i, events[..0]);
    for n := 0 to |events|
      invariant host.Valid() && Lived(k0, i, events[..n], lives) && |lives| == n && host.k == KernelAfter(k0, events[..n], lives)
      invariant host.history == history + AllStates(events[..n], lives) && host.log == log + AllCalls(lives)
    {
      LivedIsFramed(k0, i, events[..n], lives);
      FramedMeans(k0, host.k, i);
      ghost var life := Happen(host, i, events[n]);
      LivedMore(k0, i, events, n, lives, life);
      CutIsLeft(events[n], KernelAfter(k0, events[..n], lives), life);
      lives := lives + [life];
    }
    assert events[..|events|] == events;
  }

  lemma NothingLived(k0: Kernel, i: string, events: seq<Event>)
    requires events == []
    ensures Lived(k0, i, events, []) && KernelAfter(k0, events, []) == k0 && AllStates(events, []) == [] && AllCalls([]) == []
  {}

  lemma CutIsLeft(event: Event, k: Kernel, life: Life)
    ensures IsCut(event, life) ==> life.states[event.cut.value] == Left(event, k, life)
  {}

  /** After any life of the instance, a successful setup reaches the state it reaches from the kernel
      stripped of the instance, up to the drop-in an earlier setup may have left; a failed one is rolled
      back to that stripped kernel, unless a verb of the rollback failed. */
  method LiveThenSetup(host: Host, i: string, events: seq<Event>, subnet: IpNet, dns: Dns, detected: Option<nat>,
                       config: Option<Dns>) returns (ok: bool, ghost lives: seq<Life>, ghost life: Life)
    requires host.Valid() && Tidy(host.k)
    modifies host
    ensures Lived(old(host.k), i, events, lives)
    ensures SetupRan(i, subnet, dns, detected, config, KernelAfter(old(host.k), events, lives), life)
    ensures host.history == old(host.history) + AllStates(events, lives) + life.states
    ensures host.log == old(host.log) + AllCalls(lives) + life.calls
    ensures ok ==> Usable(subnet, dns) && InPlace(host.k, i, subnet.addr, detected, dns)
    ensures ok ==>
      var fromScratch := Configured(Strip(old(host.k), i), PlanOf(i, subnet, detected), dns);
      && (dns.Forward? ==> host.k == fromScratch)
      && host.k.(dropIns := map[]) == fromScratch.(dropIns := map[])
      && host.k.dropIns - {DropInName(i)} == old(host.k).dropIns - {DropInName(i)}
    ensures !ok ==> RolledBack(life.calls, old(host.k), host.k, i, Reloads(config))
  {
    hide Tidy, Configured, InPlace, Strip, Framed, RolledBack, TeardownSteps, DropInName, Lived, KernelAfter, AllStates, AllCalls, SetupRan,
      EndOf;
    ghost var k0 := host.k;
    lives := Live(host, i, events);
    LivedIsFramed(k0, i, events, lives);
    ghost var before := host.k;
    FramedMeans(k0, before, i);
    ok, life := RunSetup(host, i, subnet, dns, detected, config);
    if ok {
      FromScratch(k0, before, PlanOf(i, subnet, detected), dns);
    } else {
      RolledBackFromEarlier(life.calls, k0, before, host.k, i, Reloads(config));
    }
  }

  lemma RolledBackFromEarlier(log: seq<Call>, k0: Kernel, mid: Kernel, k: Kernel, i: string, reloads: bool)
    requires RolledBack(log, mid, k, i, reloads) && Strip(mid, i) == Strip(k0, i)
    ensures RolledBack(log, k0, k, i, reloads)
  {
    hide Recorded, AllSucceeded, AllGone, Strip;
  }

  /** After any life of the instance, a teardown whose verbs succeed or find nothing to do leaves nothing
      of it. */
  method LiveThenTeardown(host: Host, i: string, events: seq<Event>, config: Option<Dns>)
      returns (firstErr: Option<TeardownStep>, ghost lives: seq<Life>, ghost life: Life)
    requires host.Valid() && Tidy(host.k)
    modifies host
    ensures Lived(old(host.k), i, events, lives)
    ensures Recorded(life.calls, TeardownSteps(Reloads(config)), firstErr, i, KernelAfter(old(host.k), events, lives), host.k)
    ensures host.history == old(host.history) + AllStates(events, lives) + life.states
    ensures host.log == old(host.log) + AllCalls(lives) + life.calls
    ensures AllSucceeded(life.calls) ==> AllGone(life.calls)
    ensures AllGone(life.calls) ==> host.k == Strip(old(host.k), i)
  {
    hide Tidy, Strip, Framed, TeardownSteps, Recorded, AllGone, AllSucceeded, Lived, KernelAfter, AllStates, AllCalls, EndOf,
      TeardownRan;
    ghost var k0 := host.k;
    lives := Live(host, i, events);
    LivedIsFramed(k0, i, events, lives);
    FramedMeans(k0, host.k, i);
    firstErr, life := RunTeardown(host, i, config);
  }

  lemma StripTwice(k: Kernel, i: string)
    ensures Strip(Strip(k, i), i) == Strip(k, i)
  {
    hide NetnsName, HostVeth, RunnerVeth, DropInName;
    assert OwnedLinks(Strip(k, i), i) == {};
  }

  lemma StripsDropIn(a: Kernel, b: Kernel, i: string)
    requires Strip(a, i) == Strip(b, i)
    ensures a.dropIns - {DropInName(i)} == b.dropIns - {DropInName(i)}
  {
    hide OwnedLinks;
  }

  lemma FromScratch(k0: Kernel, k: Kernel, p: Plan, dns: Dns)
    requires Strip(k, p.instance) == Strip(k0, p.instance)
    ensures var made, fromScratch := Configured(k, p, dns), Configured(Strip(k0, p.instance), p, dns);
      && (dns.Forward? ==> made == fromScratch)
      && made.(dropIns := map[]) == fromScratch.(dropIns := map[])
      && made.dropIns - {DropInName(p.instance)} == k0.dropIns - {DropInName(p.instance)}
  {
    hide Wired, Scrub, DropInName, DropInText, ResolvText, Strip;
    var i := p.instance;
    StripTwice(k0, i);
    SameConfiguration(k, Strip(k0, i), p, dns);
    ScrubsMeet(k, Strip(k0, i), p);
    StripsDropIn(k, k0, i);
    WiringKeepsFiles(Scrub(k, i), p);
    WiringKeepsFiles(Scrub(Strip(k0, i), i), p);
    ScrubKeepsDropIns(k, i);
  }

  lemma ScrubKeepsDropIns(k: Kernel, i: string)
    ensures Scrub(k, i).dropIns == k.dropIns && Scrub(k, i).resolvs == Strip(k, i).resolvs
  {}
}
