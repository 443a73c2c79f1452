/** Setting up and tearing down a runner's network namespace: any verb may fail, with or without its
    effect; every state in between is kept. */
module Netns {
  import opened Config
  import opened Options
  import opened Text
  import opened NetnsNames
  import opened NetnsKernel
  import opened NetnsStages

  // ---------- Running one tool -------------------------------------------------

  datatype Outcome = NotSpawned | Exited(success: bool, stderr: string)

  const NO_SPACE_FILE := "Cannot remove namespace file"

  const ABSENT_MARKERS: seq<string> := [
    "Cannot find device",
    NO_SPACE_FILE,
    "does not exist",
    "No such file or directory",
    "No such device"]

  /** `run_cleanup_verb` takes this for an absent resource. */
  predicate LooksAbsent(stderr: string) {
    exists m | m in ABSENT_MARKERS :: Contains(stderr, m)
  }

  /** One of five phrases somewhere in the message. */
  lemma MarkersExactly(stderr: string)
    ensures LooksAbsent(stderr) <==>
      exists a, m, b :: stderr == a + m + b && m in {
        "Cannot find device", "Cannot remove namespace file", "does not exist", "No such file or directory", "No such device"}
  {
    hide Contains;
    var markers := {
      "Cannot find device", "Cannot remove namespace file", "does not exist", "No such file or directory", "No such device"};
    assert forall m :: m in markers <==> m in ABSENT_MARKERS;
    forall m | m in markers
      ensures Contains(stderr, m) <==> exists a, b :: stderr == a + m + b
    {
      ContainsExactly(stderr, m);
    }
  }

  /** `run_cleanup_verb`: does it report success? */
  predicate CleanupAccepts(o: Outcome) {
    o.Exited? && (o.success || LooksAbsent(o.stderr))
  }

  /** The kernel after a verb that may find nothing to do. */
  function After(k: Kernel, v: Verb): Kernel {
    var r := Apply(k, v);
    if r.Some? then r.value else k
  }

  /** What the host was asked and what came of it: a verb with the kernel before and after it, or a reload
      and its exit status, None when it could not be started. */
  datatype Call =
    | Tool(verb: Verb, before: Kernel, after: Kernel, o: Outcome)
    | Reloaded(status: Option<bool>)

  /** A verb has its effect or none, and the effect if it exits with success. */
  predicate Sound(c: Call) {
    c.Tool? ==>
      && (c.after == c.before || Apply(c.before, c.verb) == Some(c.after))
      && (c.o.Exited? && c.o.success ==> Apply(c.before, c.verb) == Some(c.after))
  }

  /** The tool exited with success, or there was nothing for it to do. */
  predicate Succeeded(c: Call) {
    c.Tool? ==> (c.o.Exited? && c.o.success) || Apply(c.before, c.verb).None?
  }

  /** What was to be removed is gone. */
  predicate Gone(c: Call) {
    c.Tool? ==> c.after == After(c.before, c.verb)
  }

  /** Taken for a failure by a teardown: a reload only when it could not be started. */
  predicate Failed(c: Call) {
    match c
    case Tool(_, _, _, o) => !CleanupAccepts(o)
    case Reloaded(status) => status.None?
  }

  lemma SucceededIsGone(c: Call)
    requires Sound(c) && Succeeded(c)
    ensures Gone(c)
  {
    hide Apply;
  }

  /** Reported done, yet still there: exactly when there was something to do, the tool failed without doing
      it, and mentioned one of the markers. */
  lemma SwallowedExactly(c: Call)
    requires c.Tool? && Sound(c)
    ensures !Failed(c) && !Gone(c) <==>
      && After(c.before, c.verb) != c.before && c.after == c.before
      && c.o.Exited? && !c.o.success && LooksAbsent(c.o.stderr)
  {
    hide Apply, LooksAbsent;
  }

  /** Everything but the instance's own things is as in `k0`, and the kernel is tidy. */
  ghost predicate Framed(k0: Kernel, k: Kernel, i: string) {
    Tidy(k) && Strip(k, i) == Strip(k0, i)
  }

  lemma FramedTrans(a: Kernel, b: Kernel, c: Kernel, i: string)
    requires Framed(a, b, i) && Framed(b, c, i)
    ensures Framed(a, c, i)
  {
    hide Tidy, Strip;
  }

  lemma VerbIsFramed(k: Kernel, v: Verb, i: string)
    requires Tidy(k) && OfInstance(v, i)
    ensures Framed(k, k, i)
    ensures Apply(k, v).Some? ==> Framed(k, Apply(k, v).value, i)
  {
    hide Tidy, Strip, OfInstance, Apply;
    if Apply(k, v).Some? {
      VerbKeepsTheRest(k, v, i);
      VerbKeepsTidy(k, v, i);
    }
  }

  /** One verb on the instance's things, and nothing else. */
  ghost predicate OneVerb(a: Kernel, b: Kernel, i: string) {
    exists v :: OfInstance(v, i) && Apply(a, v) == Some(b)
  }

  /** From `start` on, every state comes from the one before by one verb on the instance's things. */
  ghost predicate Steps(history: seq<Kernel>, start: nat, i: string) {
    forall n | start <= n < |history| && 0 < n :: OneVerb(history[n - 1], history[n], i)
  }

  lemma OneMoreStep(history: seq<Kernel>, start: nat, v: Verb, i: string)
    requires Steps(history, start, i) && history != [] && OfInstance(v, i)
    requires Apply(history[|history| - 1], v).Some?
    ensures Steps(history + [Apply(history[|history| - 1], v).value], start, i)
  {
    hide OfInstance, Apply;
    var last, more := history[|history| - 1], history + [Apply(history[|history| - 1], v).value];
    assert OneVerb(last, more[|history|], i);
    forall n | start <= n < |more| && 0 < n
      ensures OneVerb(more[n - 1], more[n], i)
    {
      if n < |history| {
        assert OneVerb(history[n - 1], history[n], i);
      }
    }
  }

  class Host {
    var k: Kernel
    var loaded: map<string, string> // the drop-ins systemd-resolved has read
    var history: seq<Kernel>
    ghost var log: seq<Call> // every tool run, file removed or reload
    ghost var faults: nat

    ghost predicate Valid()
      reads this
    {
      history != [] && history[|history| - 1] == k
    }

    /** Every state since `start` is framed by `k0`, and one verb away from the one before. */
    ghost predicate Calm(k0: Kernel, i: string, start: nat)
      reads this
    {
      && Valid() && start <= |history| && Framed(k0, k, i) && Steps(history, start, i)
      && forall n | start <= n < |history| :: Framed(k0, history[n], i)
    }

    constructor (k: Kernel)
      ensures Valid() && this.k == k && history == [k] && loaded == map[] && faults == 0 && log == []
    {
      this.k := k;
      loaded := map[];
      history := [k];
      log := [];
      faults := 0;
    }

    /** The process dies; what it did so far stays. */
    method Crash(n: nat)
      requires Valid() && n < |history|
      modifies this
      ensures Valid() && k == old(history)[n] && history == old(history) + [k] && log == old(log)
    {
      k := history[n];
      history := history + [k];
    }

    /** One change that is all the verb does. */
    method Commit(v: Verb, ghost i: string, ghost k0: Kernel, ghost start: nat)
      requires Calm(k0, i, start) && OfInstance(v, i) && Apply(k, v).Some?
      modifies this
      ensures Calm(k0, i, start) && k == Apply(old(k), v).value && faults == old(faults) && loaded == old(loaded)
      ensures old(history) <= history && log == old(log)
    {
      hide Framed, OfInstance, Apply, Steps;
      StepIsFramed(k0, k, v, i);
      OneMoreStep(history, start, v, i);
      k := Apply(k, v).value;
      history := history + [k];
    }

    method Fault() returns (failed: bool)
      modifies `faults
      ensures faults == old(faults) + if failed then 1 else 0
    {
      failed := *;
      if failed {
        faults := faults + 1;
      }
    }

    /** Run a tool for one verb. Exit status zero means it did its work; a failing tool may have done it
        or not. Without a fault it does what the kernel allows, and names what is absent. */
    method RunTool(v: Verb, ghost i: string, ghost k0: Kernel, ghost start: nat) returns (o: Outcome)
      requires Calm(k0, i, start) && OfInstance(v, i)
      modifies this
      ensures Calm(k0, i, start) && faults >= old(faults) && loaded == old(loaded) && old(history) <= history
      ensures log == old(log) + [Tool(v, old(k), k, o)] && Sound(Tool(v, old(k), k, o))
      ensures faults == old(faults) ==> o.Exited? && (o.success <==> Apply(old(k), v).Some?)
      ensures faults == old(faults) && !o.success ==> k == old(k) && LooksAbsent(o.stderr)
    {
      hide Framed, OfInstance, Apply;
      ghost var before := k;
      var failed := Fault();
      var effect: bool := *;
      var can := Apply(k, v).Some?;
      if can && (effect || !failed) {
        Commit(v, i, k0, start);
      }
      if failed {
        var spawned: bool, stderr: string := *, *;
        o := if spawned then Exited(false, stderr) else NotSpawned;
      } else if can {
        o := Exited(true, "");
      } else {
        assert Contains(ABSENT_MARKERS[0], ABSENT_MARKERS[0]);
        o := Exited(false, ABSENT_MARKERS[0]);
      }
      log := log + [Tool(v, before, k, o)];
    }
  }

  lemma StepIsFramed(k0: Kernel, k: Kernel, v: Verb, i: string)
    requires Framed(k0, k, i) && OfInstance(v, i) && Apply(k, v).Some?
    ensures Framed(k0, Apply(k, v).value, i)
  {
    hide Strip, OfInstance, Apply, Tidy;
    VerbIsFramed(k, v, i);
  }

  /** `run_required`. */
  method RunRequired(host: Host, v: Verb, ghost i: string, ghost k0: Kernel, ghost start: nat) returns (ok: bool)
    requires host.Calm(k0, i, start) && OfInstance(v, i)
    modifies host
    ensures host.Calm(k0, i, start) && host.faults >= old(host.faults) && host.loaded == old(host.loaded)
    ensures old(host.history) <= host.history
    ensures exists o :: host.log == old(host.log) + [Tool(v, old(host.k), host.k, o)] && (ok <==> o.Exited? && o.success)
    ensures ok ==> Apply(old(host.k), v) == Some(host.k)
    ensures host.faults == old(host.faults) && Apply(old(host.k), v).Some? ==> ok
  {
    hide Framed, OfInstance, Apply;
    var o := host.RunTool(v, i, k0, start);
    ok := o.Exited? && o.success;
  }

  /** `run_cleanup_verb`, by what the tool answered. */
  method RunCleanup(host: Host, v: Verb, ghost i: string, ghost k0: Kernel, ghost start: nat)
      returns (ok: bool, ghost call: Call)
    requires host.Calm(k0, i, start) && OfInstance(v, i)
    modifies host
    ensures host.Calm(k0, i, start) && host.faults >= old(host.faults) && host.loaded == old(host.loaded)
    ensures old(host.history) <= host.history && host.log == old(host.log) + [call]
    ensures call.Tool? && call.verb == v && call.before == old(host.k) && call.after == host.k && Sound(call)
    ensures ok <==> CleanupAccepts(call.o)
    ensures host.faults == old(host.faults) ==> ok && Succeeded(call) && host.k == After(old(host.k), v)
  {
    hide Framed, OfInstance, Apply, LooksAbsent;
    ghost var k := host.k;
    var o := host.RunTool(v, i, k0, start);
    ok, call := CleanupAccepts(o), Tool(v, k, host.k, o);
    if Succeeded(call) {
      SucceededIsGone(call);
    }
  }

  /** `remove_if_exists`: an absent file is as good as a removed one. */
  method RemoveIfExists(host: Host, v: Verb, ghost i: string, ghost k0: Kernel, ghost start: nat)
      returns (ok: bool, ghost call: Call)
    requires host.Calm(k0, i, start) && OfInstance(v, i) && (v.RmDropIn? || v.RmResolv?)
    modifies host
    ensures host.Calm(k0, i, start) && host.faults >= old(host.faults) && host.loaded == old(host.loaded)
    ensures old(host.history) <= host.history && host.log == old(host.log) + [call]
    ensures call.Tool? && call.verb == v && call.before == old(host.k) && call.after == host.k && Sound(call)
    ensures ok <==> CleanupAccepts(call.o)
    ensures if ok then host.k == After(old(host.k), v) && Succeeded(call) else host.k == old(host.k)
    ensures host.faults == old(host.faults) ==> ok
  {
    hide Framed, OfInstance, Apply;
    ghost var k := host.k;
    var failed := host.Fault();
    if failed {
      ok, call := false, Tool(v, k, k, NotSpawned);
    } else if Apply(host.k, v).Some? {
      host.Commit(v, i, k0, start);
      ok, call := true, Tool(v, k, host.k, Exited(true, ""));
    } else {
      assert Contains(ABSENT_MARKERS[3], ABSENT_MARKERS[3]);
      ok, call := true, Tool(v, k, k, Exited(false, ABSENT_MARKERS[3]));
    }
    host.log := host.log + [call];
  }

  function FileVerb(dropIn: bool, i: string, text: string): Verb {
    if dropIn then PutDropIn(DropInName(i), text) else PutResolv(i, text)
  }

  lemma WriteTwice(k: Kernel, dropIn: bool, i: string, a: string, b: string)
    ensures Apply(k, FileVerb(dropIn, i, a)).Some? && OfInstance(FileVerb(dropIn, i, a), i)
    ensures Apply(Apply(k, FileVerb(dropIn, i, a)).value, FileVerb(dropIn, i, b)) == Apply(k, FileVerb(dropIn, i, b))
  {
    hide DropInName;
    assert k.dropIns[DropInName(i) := a][DropInName(i) := b] == k.dropIns[DropInName(i) := b];
    assert k.resolvs[i := a][i := b] == k.resolvs[i := b];
  }

  /** `write_file_644`: created or emptied first, then written, perhaps only in part. */
  method WriteFile(host: Host, dropIn: bool, i: string, text: string, ghost k0: Kernel, ghost start: nat) returns (ok: bool)
    requires host.Calm(k0, i, start)
    modifies host
    ensures host.Calm(k0, i, start) && host.faults >= old(host.faults) && host.loaded == old(host.loaded)
    ensures old(host.history) <= host.history && host.log == old(host.log)
    ensures ok ==> Some(host.k) == Apply(old(host.k), FileVerb(dropIn, i, text))
    ensures host.faults == old(host.faults) <==> ok
  {
    hide Framed, OfInstance, Apply, FileVerb;
    ghost var k := host.k;
    var failed := host.Fault();
    if failed {
      return false;
    }
    WriteTwice(k, dropIn, i, "", "");
    host.Commit(FileVerb(dropIn, i, ""), i, k0, start);
    var cut: nat :| cut <= |text|;
    WriteTwice(k, dropIn, i, "", text[..cut]);
    WriteTwice(host.k, dropIn, i, text[..cut], text);
    host.Commit(FileVerb(dropIn, i, text[..cut]), i, k0, start);
    failed := host.Fault();
    if failed {
      return false;
    }
    WriteTwice(k, dropIn, i, text[..cut], text);
    WriteTwice(host.k, dropIn, i, text, text);
    host.Commit(FileVerb(dropIn, i, text), i, k0, start);
    return true;
  }

  /** `systemctl reload systemd-resolved`: None when it could not even be started. */
  method Reload(host: Host) returns (status: Option<bool>)
    modifies host
    ensures host.k == old(host.k) && host.history == old(host.history) && host.faults >= old(host.faults)
    ensures host.log == old(host.log) + [Reloaded(status)]
    ensures host.loaded == if status == Some(true) then host.k.dropIns else old(host.loaded)
    ensures host.faults == old(host.faults) <==> status == Some(true)
  {
    var failed := host.Fault();
    if failed {
      var spawned: bool := *;
      status := if spawned then Some(false) else None;
    } else {
      host.loaded := host.k.dropIns;
      status := Some(true);
    }
    host.log := host.log + [Reloaded(status)];
  }

  method ReloadCalmly(host: Host, ghost i: string, ghost k0: Kernel, ghost start: nat) returns (status: Option<bool>)
    requires host.Calm(k0, i, start)
    modifies host
    ensures host.Calm(k0, i, start) && host.k == old(host.k) && host.history == old(host.history)
    ensures host.faults >= old(host.faults) && host.log == old(host.log) + [Reloaded(status)]
    ensures host.loaded == if status == Some(true) then host.k.dropIns else old(host.loaded)
    ensures host.faults == old(host.faults) <==> status == Some(true)
  {
    hide Framed;
    status := Reload(host);
  }

  // ---------- Name resolution --------------------------------------------------

  /** Servers as their address texts. */
  type Dns = DnsMode<string>

  function DropInComment(i: string, host: Ipv4): string {
    "# generated by ghars apply \U{2014} DO NOT EDIT\n# runner=" + i + " veth_host_ip=" + Quad(host)
  }

  function DropInText(i: string, host: Ipv4): string {
    DropInComment(i, host) + ("\n[Resolve]\nDNSStubListenerExtra=" + Quad(host) + "\n")
  }

  function ServerLines(servers: seq<string>): string {
    if servers == [] then ""
    else ServerLines(servers[..|servers| - 1]) + "nameserver " + servers[|servers| - 1] + "\n"
  }

  function ResolvText(host: Ipv4, dns: Dns): string {
    ServerLines(if dns.Forward? then [Quad(host)] else dns.servers)
  }

  /** The kernel with the instance's name resolution set up. */
  function WithDns(k: Kernel, i: string, host: Ipv4, dns: Dns): Kernel {
    k.(dropIns := if dns.Forward? then k.dropIns[DropInName(i) := DropInText(i, host)] else k.dropIns,
       resolvs := k.resolvs[i := ResolvText(host, dns)])
  }

  /** The lines for the given servers, written to the instance's resolv.conf. */
  method WriteServers(host: Host, i: string, servers: seq<string>, ghost k0: Kernel, ghost start: nat) returns (ok: bool)
    requires host.Calm(k0, i, start)
    modifies host
    ensures host.Calm(k0, i, start) && host.faults >= old(host.faults) && old(host.history) <= host.history
    ensures host.log == old(host.log) && host.loaded == old(host.loaded)
    ensures ok ==> host.k == old(host.k).(resolvs := old(host.k).resolvs[i := ServerLines(servers)])
    ensures host.faults == old(host.faults) <==> ok
  {
    hide Framed, OfInstance, Host.Calm;
    var body := "";
    for n := 0 to |servers|
      invariant body == ServerLines(servers[..n])
    {
      assert servers[..n + 1][..n] == servers[..n];
      body := body + "nameserver " + servers[n] + "\n";
    }
    assert servers[..|servers|] == servers;
    ok := WriteFile(host, false, i, body, k0, start);
  }

  lemma OneServer(server: string)
    ensures ServerLines([server]) == "nameserver " + server + "\n"
  {
    assert [server][..0] == [];
    assert "" + "nameserver " == "nameserver ";
  }

  /** What setting up name resolution calls: a reload after the drop-in, which has to succeed, or nothing. */
  predicate DnsCalls(calls: seq<Call>, dns: Dns, ok: bool) {
    match dns
    case Static(servers) => calls == [] && (ok ==> servers != [])
    case Forward =>
      if calls == [] then !ok else |calls| == 1 && calls[0].Reloaded? && (ok ==> calls[0].status == Some(true))
  }

  /** The drop-in for systemd-resolved, read again, then the resolv.conf. */
  method ForwardDns(host: Host, i: string, ip: Ipv4, ghost k0: Kernel, ghost start: nat) returns (ok: bool)
    requires host.Calm(k0, i, start)
    modifies host
    ensures host.Calm(k0, i, start) && host.faults >= old(host.faults) && old(host.history) <= host.history
    ensures old(host.log) <= host.log && DnsCalls(host.log[|old(host.log)|..], Forward, ok)
    ensures ok ==> host.k == WithDns(old(host.k), i, ip, Forward) && host.loaded == host.k.dropIns
    ensures host.faults == old(host.faults) <==> ok
  {
    hide Framed, OfInstance, DropInText, Quad, DropInName, Host.Calm, ServerLines;
    ok := WriteFile(host, true, i, DropInText(i, ip), k0, start);
    if !ok {
      return;
    }
    var status := ReloadCalmly(host, i, k0, start);
    if status != Some(true) {
      return false;
    }
    OneServer(Quad(ip));
    ok := WriteFile(host, false, i, "nameserver " + Quad(ip) + "\n", k0, start);
  }

  /** `setup_dns`. */
  method SetupDns(host: Host, i: string, ip: Ipv4, dns: Dns, ghost k0: Kernel, ghost start: nat) returns (ok: bool)
    requires host.Calm(k0, i, start)
    modifies host
    ensures host.Calm(k0, i, start) && host.faults >= old(host.faults) && old(host.history) <= host.history
    ensures old(host.log) <= host.log && DnsCalls(host.log[|old(host.log)|..], dns, ok)
    ensures ok ==> host.k == WithDns(old(host.k), i, ip, dns) && dns != Static([])
    ensures ok && dns.Forward? ==> host.loaded == host.k.dropIns
    ensures host.faults == old(host.faults) && dns != Static([]) <==> ok
  {
    hide Framed, OfInstance, DropInText, Quad, DropInName, ServerLines;
    var failed := host.Fault(); // the directory of the resolv.conf
    if failed {
      return false;
    }
    match dns {
      case Forward =>
        ok := ForwardDns(host, i, ip, k0, start);
      case Static(servers) =>
        if servers == [] {
          return false;
        }
        ok := WriteServers(host, i, servers, k0, start);
    }
  }

  // ---------- Setup --------------------------------------------------------------

  const PROGRAM: nat := 2 + STAGES

  /** The verbs of a setup in their order: two to clear the way, then those that create and configure. */
  function SetupVerb(p: Plan, n: nat): Verb
    requires n < PROGRAM
  {
    if n == 0 then DelLink(HostVeth(p.instance)) else if n == 1 then DelSpace(p.Ns()) else VerbAt(p, n - 2)
  }

  /** Does a setup go on after this answer to its `n`th verb? Only the first two may fail, for want of
      something to remove. */
  predicate GoesOn(n: nat, o: Outcome) {
    o.Exited? && (o.success || (n < 2 && LooksAbsent(o.stderr)))
  }

  predicate IsTurn(c: Call, p: Plan, n: nat)
    requires n < PROGRAM
  {
    c.Tool? && c.verb == SetupVerb(p, n)
  }

  /** These calls ran the first verbs of a setup, one after another, each with an answer to go on after. */
  predicate InTurn(calls: seq<Call>, p: Plan) {
    |calls| <= PROGRAM && forall n | 0 <= n < |calls| :: IsTurn(calls[n], p, n) && GoesOn(n, calls[n].o)
  }

  /** ... and so did these, but for the last. */
  predicate StoppedInTurn(calls: seq<Call>, p: Plan) {
    && 0 < |calls| <= PROGRAM
    && var n := |calls| - 1;
    InTurn(calls[..n], p) && IsTurn(calls[n], p, n) && !GoesOn(n, calls[n].o)
  }

  /** Since the log was `asked` long, the first `n` verbs were run. */
  predicate Progress(log: seq<Call>, asked: nat, p: Plan, n: nat) {
    asked <= |log| && InTurn(log[asked..], p) && |log[asked..]| == n
  }

  predicate Halted(log: seq<Call>, asked: nat, p: Plan) {
    asked <= |log| && StoppedInTurn(log[asked..], p)
  }

  lemma NextTurn(log: seq<Call>, asked: nat, p: Plan, n: nat, c: Call, ok: bool)
    requires Progress(log, asked, p, n) && n < PROGRAM && IsTurn(c, p, n) && (ok <==> GoesOn(n, c.o))
    ensures if ok then Progress(log + [c], asked, p, n + 1) else Halted(log + [c], asked, p)
  {
    hide IsTurn, GoesOn;
    var calls := log[asked..];
    assert (log + [c])[asked..] == calls + [c];
    assert (calls + [c])[..n] == calls;
  }

  /** All that a setup calls: the verbs in their turn up to the first that it does not go on after; after
      all of them, what name resolution calls. */
  predicate ByTurns(calls: seq<Call>, p: Plan, dns: Dns, ok: bool) {
    || (!ok && StoppedInTurn(calls, p))
    || (|calls| >= PROGRAM && InTurn(calls[..PROGRAM], p) && DnsCalls(calls[PROGRAM..], dns, ok))
  }

  predicate Proceeded(calls: seq<Call>, i: string, subnet: IpNet, dns: Dns, detected: Option<nat>, ok: bool) {
    if subnet.V4? && subnet.prefixLen == 30 then ByTurns(calls, PlanOf(i, subnet, detected), dns, ok)
    else calls == [] && !ok
  }

  lemma StoppedEarly(log: seq<Call>, asked: nat, i: string, subnet: IpNet, dns: Dns, detected: Option<nat>)
    requires subnet.V4? && subnet.prefixLen == 30 && Halted(log, asked, PlanOf(i, subnet, detected))
    ensures Proceeded(log[asked..], i, subnet, dns, detected, false)
  {
    hide StoppedInTurn;
  }

  lemma AllTurnsDone(log: seq<Call>, asked: nat, i: string, subnet: IpNet, dns: Dns, detected: Option<nat>, more: seq<Call>, ok: bool)
    requires subnet.V4? && subnet.prefixLen == 30 && Progress(log, asked, PlanOf(i, subnet, detected), PROGRAM)
    requires log <= more && DnsCalls(more[|log|..], dns, ok)
    ensures Proceeded(more[asked..], i, subnet, dns, detected, ok)
  {
    hide InTurn, DnsCalls;
    var calls := more[asked..];
    assert calls[..PROGRAM] == log[asked..] && calls[PROGRAM..] == more[|log|..];
  }

  /** The configured kernel: both ends of the pair, the namespace and its settings. */
  function Wired(k: Kernel, p: Plan): Kernel {
    k.(links := k.links
         [p.HostKey() := Link(Some(p.RunnerKey()), p.mtu, true, {(p.host, LEN)}, true)]
         [p.RunnerKey() := Link(Some(p.HostKey()), p.mtu, true, {(p.runner, LEN)}, false)],
       spaces := k.spaces[p.Ns() := Space(true, Some(p.host), true, true)])
  }

  /** What an earlier setup left, but for its drop-in, which no setup removes. */
  function Scrub(k: Kernel, i: string): Kernel {
    Strip(k, i).(dropIns := k.dropIns)
  }

  /** What a successful setup makes of `k`. */
  function Configured(k: Kernel, p: Plan, dns: Dns): Kernel {
    WithDns(Wired(Scrub(k, p.instance), p), p.instance, p.host, dns)
  }

  /** `n` of the verbs have succeeded, from `k1`. */
  predicate Reached(k1: Kernel, k: Kernel, p: Plan, n: nat) {
    && n <= STAGES && k == Stage(k1, p, n)
    && (n >= 1 ==> p.Ns() !in k1.spaces)
    && (n >= 2 ==> Free(k1, p))
  }

  /** The next verb, if it succeeds; and it can, if nothing is in the way. */
  lemma NextStage(k1: Kernel, k: Kernel, p: Plan, n: nat)
    requires Tidy(k1) && Reached(k1, k, p, n) && n < STAGES
    ensures OfInstance(VerbAt(p, n), p.instance)
    ensures var r := Apply(k, VerbAt(p, n));
      && (r.Some? ==> Reached(k1, r.value, p, n + 1))
      && (Free(k1, p) ==> r.Some?)
  {
    hide OfInstance, Apply, VerbAt, Stage;
    StagesAreOfInstance(p, n);
    if n < 2 {
      CreatingStage(k1, p, n);
    } else if n == 2 {
      NoSpaceNothingInside(k1, p.Ns());
      MovingStage(k1, p);
    } else {
      SettingStage(k1, p, n);
    }
  }

  lemma NoSpaceNothingInside(k: Kernel, ns: string)
    requires Tidy(k) && ns !in k.spaces
    ensures NothingInside(k, ns)
  {
    LinksAreInSpaces(k);
  }

  /** One of the verbs of the setup, in its turn. */
  method Do(host: Host, v: Verb, ghost n: nat, ghost k1: Kernel, ghost p: Plan, ghost k0: Kernel, ghost start: nat, ghost asked: nat)
      returns (ok: bool)
    requires host.Calm(k0, p.instance, start) && Tidy(k1) && n < STAGES && v == VerbAt(p, n) && Reached(k1, host.k, p, n)
    requires Progress(host.log, asked, p, n + 2)
    modifies host
    ensures host.Calm(k0, p.instance, start) && host.faults >= old(host.faults) && host.loaded == old(host.loaded)
    ensures old(host.history) <= host.history && old(host.log) <= host.log
    ensures if ok then Progress(host.log, asked, p, n + 3) else Halted(host.log, asked, p)
    ensures ok ==> Reached(k1, host.k, p, n + 1)
    ensures host.faults == old(host.faults) && Free(k1, p) ==> ok
  {
    hide Framed, OfInstance, Apply, VerbAt, Reached, Tidy, Free, Progress, Halted;
    NextStage(k1, host.k, p, n);
    ghost var k, log := host.k, host.log;
    ok := RunRequired(host, v, p.instance, k0, start);
    ghost var o :| host.log == log + [Tool(v, k, host.k, o)] && (ok <==> o.Exited? && o.success);
    NextTurn(log, asked, p, n + 2, Tool(v, k, host.k, o), ok);
  }

  /** The namespace and the pair, one end moved into it. */
  method CreateLinks(host: Host, ghost k1: Kernel, p: Plan, ghost k0: Kernel, ghost start: nat, ghost asked: nat)
      returns (ok: bool)
    requires host.Calm(k0, p.instance, start) && Tidy(k1) && Reached(k1, host.k, p, 0)
    requires Progress(host.log, asked, p, 2)
    modifies host
    ensures host.Calm(k0, p.instance, start) && host.faults >= old(host.faults) && host.loaded == old(host.loaded)
    ensures old(host.history) <= host.history && old(host.log) <= host.log
    ensures if ok then Progress(host.log, asked, p, 5) else Halted(host.log, asked, p)
    ensures ok ==> Reached(k1, host.k, p, 3)
    ensures host.faults == old(host.faults) && Free(k1, p) ==> ok
  {
    hide Progress, Halted, Framed, OfInstance, Apply, Reached, Tidy, Free, HostVeth, RunnerVeth, NetnsName, Host.Calm;
    ok := Do(host, AddSpace(p.Ns()), 0, k1, p, k0, start, asked);
    if !ok { return; }
    ok := Do(host, AddVeth(HostVeth(p.instance), RunnerVeth(p.instance)), 1, k1, p, k0, start, asked);
    if !ok { return; }
    ok := Do(host, MoveLink(RunnerVeth(p.instance), p.Ns()), 2, k1, p, k0, start, asked);
  }

  method SetMtus(host: Host, ghost k1: Kernel, p: Plan, ghost k0: Kernel, ghost start: nat, ghost asked: nat)
      returns (ok: bool)
    requires host.Calm(k0, p.instance, start) && Tidy(k1) && Reached(k1, host.k, p, 3)
    requires Progress(host.log, asked, p, 5)
    modifies host
    ensures host.Calm(k0, p.instance, start) && host.faults >= old(host.faults) && host.loaded == old(host.loaded)
    ensures old(host.history) <= host.history && old(host.log) <= host.log
    ensures if ok then Progress(host.log, asked, p, 7) else Halted(host.log, asked, p)
    ensures ok ==> Reached(k1, host.k, p, 5)
    ensures host.faults == old(host.faults) && Free(k1, p) ==> ok
  {
    hide Progress, Halted, Framed, OfInstance, Apply, Reached, Tidy, Free, HostVeth, RunnerVeth, NetnsName, Host.Calm;
    ok := Do(host, SetMtu(p.HostKey(), p.mtu), 3, k1, p, k0, start, asked);
    if !ok { return; }
    ok := Do(host, SetMtu(p.RunnerKey(), p.mtu), 4, k1, p, k0, start, asked);
  }

  /** MTU, addresses and state of both ends. */
  method ConfigureLinks(host: Host, ghost k1: Kernel, p: Plan, ghost k0: Kernel, ghost start: nat, ghost asked: nat)
      returns (ok: bool)
    requires host.Calm(k0, p.instance, start) && Tidy(k1) && Reached(k1, host.k, p, 3)
    requires Progress(host.log, asked, p, 5)
    modifies host
    ensures host.Calm(k0, p.instance, start) && host.faults >= old(host.faults) && host.loaded == old(host.loaded)
    ensures old(host.history) <= host.history && old(host.log) <= host.log
    ensures if ok then Progress(host.log, asked, p, 11) else Halted(host.log, asked, p)
    ensures ok ==> Reached(k1, host.k, p, 9)
    ensures host.faults == old(host.faults) && Free(k1, p) ==> ok
  {
    hide Progress, Halted, Framed, OfInstance, Apply, Reached, Tidy, Free, HostVeth, RunnerVeth, NetnsName, Host.Calm;
    ok := SetMtus(host, k1, p, k0, start, asked);
    if !ok { return; }
    ok := Do(host, AddAddr(p.HostKey(), p.host, LEN), 5, k1, p, k0, start, asked);
    if !ok { return; }
    ok := Do(host, AddAddr(p.RunnerKey(), p.runner, LEN), 6, k1, p, k0, start, asked);
    if !ok { return; }
    ok := Do(host, SetUp(p.HostKey()), 7, k1, p, k0, start, asked);
    if !ok { return; }
    ok := Do(host, SetUp(p.RunnerKey()), 8, k1, p, k0, start, asked);
  }

  method DisableV6(host: Host, ghost k1: Kernel, p: Plan, ghost k0: Kernel, ghost start: nat, ghost asked: nat) returns (ok: bool)
    requires host.Calm(k0, p.instance, start) && Tidy(k1) && Reached(k1, host.k, p, 11)
    requires Progress(host.log, asked, p, 13)
    modifies host
    ensures host.Calm(k0, p.instance, start) && host.faults >= old(host.faults) && host.loaded == old(host.loaded)
    ensures old(host.history) <= host.history && old(host.log) <= host.log
    ensures if ok then Progress(host.log, asked, p, 15) else Halted(host.log, asked, p)
    ensures ok ==> Reached(k1, host.k, p, 13)
    ensures host.faults == old(host.faults) && Free(k1, p) ==> ok
  {
    hide Progress, Halted, Framed, OfInstance, Apply, Reached, Tidy, Free, HostVeth, RunnerVeth, NetnsName, Host.Calm;
    ok := Do(host, NoV6All(p.Ns()), 11, k1, p, k0, start, asked);
    if !ok { return; }
    ok := Do(host, NoV6Default(p.Ns()), 12, k1, p, k0, start, asked);
  }

  /** Loopback, default route, IPv6 off, forwarding on the host side. */
  method ConfigureSpace(host: Host, ghost k1: Kernel, p: Plan, ghost k0: Kernel, ghost start: nat, ghost asked: nat)
      returns (ok: bool)
    requires host.Calm(k0, p.instance, start) && Tidy(k1) && Reached(k1, host.k, p, 9)
    requires Progress(host.log, asked, p, 11)
    modifies host
    ensures host.Calm(k0, p.instance, start) && host.faults >= old(host.faults) && host.loaded == old(host.loaded)
    ensures old(host.history) <= host.history && old(host.log) <= host.log
    ensures if ok then Progress(host.log, asked, p, PROGRAM) else Halted(host.log, asked, p)
    ensures ok ==> Reached(k1, host.k, p, STAGES)
    ensures host.faults == old(host.faults) && Free(k1, p) ==> ok
  {
    hide Progress, Halted, Framed, OfInstance, Apply, Reached, Tidy, Free, HostVeth, RunnerVeth, NetnsName, Host.Calm;
    ok := Do(host, LoUp(p.Ns()), 9, k1, p, k0, start, asked);
    if !ok { return; }
    ok := Do(host, AddDefaultRoute(p.Ns(), p.host), 10, k1, p, k0, start, asked);
    if !ok { return; }
    ok := DisableV6(host, k1, p, k0, start, asked);
    if !ok { return; }
    ok := Do(host, SetForwarding(HostVeth(p.instance)), 13, k1, p, k0, start, asked);
  }

  /** Everything a setup does to the kernel, from the first verb that creates something on. */
  method Wire(host: Host, p: Plan, ghost k0: Kernel, ghost start: nat, ghost asked: nat)
      returns (ok: bool)
    requires host.Calm(k0, p.instance, start) && Tidy(host.k)
    requires Progress(host.log, asked, p, 2)
    modifies host
    ensures host.Calm(k0, p.instance, start) && host.faults >= old(host.faults) && host.loaded == old(host.loaded)
    ensures old(host.history) <= host.history && old(host.log) <= host.log
    ensures if ok then Progress(host.log, asked, p, PROGRAM) else Halted(host.log, asked, p)
    ensures ok ==> Free(old(host.k), p) && host.k == Wired(old(host.k), p)
    ensures host.faults == old(host.faults) && Free(old(host.k), p) ==> ok
  {
    hide Progress, Halted, Framed, Reached, Tidy, Free, Wired, Host.Calm;
    ghost var k1 := host.k;
    NothingReached(k1, p);
    ok := CreateLinks(host, k1, p, k0, start, asked);
    if ok {
      ok := ConfigureLinks(host, k1, p, k0, start, asked);
    }
    if ok {
      ok := ConfigureSpace(host, k1, p, k0, start, asked);
    }
    if ok {
      AllReached(k1, host.k, p);
    }
  }

  lemma NothingReached(k: Kernel, p: Plan)
    ensures Reached(k, k, p, 0)
  {}

  lemma AllReached(k1: Kernel, k: Kernel, p: Plan)
    requires Reached(k1, k, p, STAGES)
    ensures Free(k1, p) && k == Wired(k1, p)
  {}

  /** With nothing of the pair or the namespace in the way, nothing of the instance is left but files. */
  lemma FreeIsScrubbed(k0: Kernel, k1: Kernel, p: Plan)
    requires Framed(k0, k1, p.instance) && Free(k1, p) && k1.dropIns == k0.dropIns
    ensures Wired(k1, p).(resolvs := k0.resolvs - {p.instance}) == Wired(Scrub(k0, p.instance), p)
  {
    hide Tidy, NetnsName, HostVeth, RunnerVeth, DropInName;
    var i := p.instance;
    LinksAreInSpaces(k1);
    assert forall key | key in k1.links :: !Owned(i, key);
    assert OwnedLinks(k1, i) == {};
    assert k1.links - OwnedLinks(k1, i) == k1.links;
    assert k1.spaces - {NetnsName(i)} == k1.spaces;
  }

  /** The resolv.conf is overwritten whatever it was. */
  lemma ConfiguredFromFree(k0: Kernel, k1: Kernel, p: Plan, dns: Dns)
    requires Framed(k0, k1, p.instance) && Free(k1, p) && k1.dropIns == k0.dropIns
    ensures WithDns(Wired(k1, p), p.instance, p.host, dns) == Configured(k0, p, dns)
  {
    hide Tidy, NetnsName, HostVeth, RunnerVeth, DropInName, DropInText, ResolvText, Free, Wired;
    var i := p.instance;
    FreeIsScrubbed(k0, k1, p);
    WiringKeepsFiles(k1, p);
    WiringKeepsFiles(Scrub(k0, i), p);
    assert k1.resolvs - {i} == k0.resolvs - {i};
    var text := ResolvText(p.host, dns);
    assert k1.resolvs[i := text] == (k1.resolvs - {i})[i := text] == (k0.resolvs - {i})[i := text];
  }

  lemma WiringKeepsFiles(k: Kernel, p: Plan)
    ensures Wired(k, p).dropIns == k.dropIns && Wired(k, p).resolvs == k.resolvs
  {}

  /** Deleting the host side and then the namespace clears the way. */
  lemma CleanupFrees(k: Kernel, p: Plan)
    requires Tidy(k)
    ensures Free(After(After(k, DelLink(HostVeth(p.instance))), DelSpace(p.Ns())), p)
  {
    hide NetnsName, HostVeth, RunnerVeth, Kin;
    var i := p.instance;
    KeysDiffer(p);
    var m := After(k, DelLink(HostVeth(i)));
    assert p.HostKey() !in m.links;
    if p.Crossing() in k.links {
      MoveStaysInFamily(k, i);
      assert p.HostKey() in k.links && k.links[p.HostKey()].peer == Some(p.Crossing());
    }
    assert p.Crossing() !in m.links;
  }

  lemma CleanupKeepsFiles(k: Kernel, v: Verb)
    requires v.DelLink? || v.DelSpace?
    ensures Apply(k, v).Some? ==> Apply(k, v).value.dropIns == k.dropIns && Apply(k, v).value.resolvs == k.resolvs
  {}

  lemma RemovalRemoves(k: Kernel, i: string)
    ensures DropInName(i) !in After(k, RmDropIn(DropInName(i))).dropIns
    ensures i !in After(k, RmResolv(i)).resolvs && After(k, RmResolv(i)).dropIns == k.dropIns
  {
    hide DropInName;
  }

  /** A configuration that setup accepts. */
  predicate Usable(subnet: IpNet, dns: Dns) {
    subnet.V4? && subnet.prefixLen == 30 && dns != Static([])
  }

  function PlanOf(i: string, subnet: IpNet, detected: Option<nat>): Plan
    requires subnet.V4? && subnet.prefixLen == 30
  {
    var r := SubnetAddresses(subnet).value;
    Plan(i, r.0, r.1, if detected.Some? then detected.value else NEW_MTU)
  }

  /** The instance is set up, in names and figures: the pair, joined and up, with the first and the second
      address of the /30 and one MTU; the namespace with its route; the resolv.conf and the drop-in. */
  predicate InPlace(k: Kernel, i: string, addr: Ipv4, detected: Option<nat>, dns: Dns) {
    var ns, first := "ghars-" + i, addr - addr % 4 + 1;
    var host, runner := Key(Host, ns + "-h"), Key(In(ns), ns + "-r");
    var mtu := if detected.Some? then detected.value else 1500;
    && first + 1 < TWO_TO_32
    && host in k.links && k.links[host] == Link(Some(runner), mtu, true, {(first, 30)}, true)
    && runner in k.links && k.links[runner] == Link(Some(host), mtu, true, {(first + 1, 30)}, false)
    && ns in k.spaces && k.spaces[ns] == Space(true, Some(first), true, true)
    && i in k.resolvs
    && match dns
       case Forward =>
         && k.resolvs[i] == "nameserver " + Quad(first) + "\n"
         && ns + ".conf" in k.dropIns
         && EndsWith(k.dropIns[ns + ".conf"], "\n[Resolve]\nDNSStubListenerExtra=" + Quad(first) + "\n")
       case Static(servers) => servers != [] && k.resolvs[i] == ServerLines(servers)
  }

  lemma ConfiguredIsInPlace(k: Kernel, i: string, subnet: IpNet, detected: Option<nat>, dns: Dns)
    requires Usable(subnet, dns)
    ensures InPlace(Configured(k, PlanOf(i, subnet, detected), dns), i, subnet.addr, detected, dns)
  {
    hide DropInText, ServerLines, Scrub, Quad;
    NoOverflow(subnet.addr);
    var p := PlanOf(i, subnet, detected);
    var first := subnet.addr - subnet.addr % 4 + 1;
    assert p.host == first && p.runner == first + 1;
    OneServer(Quad(first));
    DropInEnds(i, first);
    assert DropInName(i) == NetnsName(i) + ".conf";
    assert p.HostKey() != p.RunnerKey();
  }

  lemma DropInEnds(i: string, host: Ipv4)
    ensures EndsWith(DropInText(i, host), "\n[Resolve]\nDNSStubListenerExtra=" + Quad(host) + "\n")
  {
    hide Quad, DropInComment;
    EndsInTail(DropInComment(i, host), "\n[Resolve]\nDNSStubListenerExtra=" + Quad(host) + "\n");
  }

  lemma EndsInTail(head: string, tail: string)
    ensures EndsWith(head + tail, tail)
  {
    assert (head + tail)[|head|..] == tail;
  }

  /** The lines of the servers follow each other in order. */
  lemma {:induction false} ServersInOrder(a: seq<string>, b: seq<string>)
    ensures ServerLines(a + b) == ServerLines(a) + ServerLines(b)
  {
    if b == [] {
      assert a + b == a;
    } else {
      var n := |b| - 1;
      assert (a + b)[..|a + b| - 1] == a + b[..n] && (a + b)[|a + b| - 1] == b[n];
      ServersInOrder(a, b[..n]);
    }
  }

  /** The cleanup before creating, whose verbs may be taken for successful without being so. */
  method PreClean(host: Host, p: Plan, ghost k0: Kernel, ghost start: nat, ghost asked: nat) returns (ok: bool)
    requires host.Calm(k0, p.instance, start) && Tidy(host.k) && |host.log| == asked
    modifies host
    ensures host.Calm(k0, p.instance, start) && host.faults >= old(host.faults) && host.loaded == old(host.loaded)
    ensures old(host.history) <= host.history && old(host.log) <= host.log && host.k.dropIns == old(host.k.dropIns)
    ensures if ok then Progress(host.log, asked, p, 2) else Halted(host.log, asked, p)
    ensures host.faults == old(host.faults) ==> ok && Free(host.k, p)
  {
    hide Framed, Apply, Tidy, Free, Host.Calm, After, Progress, Halted, LooksAbsent;
    ghost var k, log := host.k, host.log;
    NoTurnYet(log, p);
    CleanupIsOfInstance(p);
    CleanupKeepsFiles(k, DelLink(HostVeth(p.instance)));
    CleanupFrees(k, p);
    ghost var call;
    ok, call := RunCleanup(host, DelLink(HostVeth(p.instance)), p.instance, k0, start);
    NextTurn(log, asked, p, 0, call, ok);
    if !ok {
      return;
    }
    log := host.log;
    CleanupKeepsFiles(host.k, DelSpace(p.Ns()));
    ok, call := RunCleanup(host, DelSpace(p.Ns()), p.instance, k0, start);
    NextTurn(log, asked, p, 1, call, ok);
  }

  lemma NoTurnYet(log: seq<Call>, p: Plan)
    ensures Progress(log, |log|, p, 0)
  {}

  lemma CleanupIsOfInstance(p: Plan)
    ensures OfInstance(DelLink(HostVeth(p.instance)), p.instance) && OfInstance(DelSpace(p.Ns()), p.instance)
    ensures OfInstance(RmDropIn(DropInName(p.instance)), p.instance) && OfInstance(RmResolv(p.instance), p.instance)
  {}

  lemma CalmIsTidy(host: Host, k0: Kernel, i: string, start: nat)
    requires host.Calm(k0, i, start)
    ensures host.Valid() && Framed(k0, host.k, i) && Tidy(host.k)
  {
    hide Tidy, Strip;
  }

  /** `setup_steps`. */
  method SetupSteps(host: Host, i: string, subnet: IpNet, dns: Dns, detected: Option<nat>) returns (ok: bool)
    requires host.Valid() && Tidy(host.k)
    modifies host
    ensures host.Calm(old(host.k), i, |old(host.history)|) && old(host.history) <= host.history && old(host.log) <= host.log
    ensures host.faults >= old(host.faults) && Proceeded(host.log[|old(host.log)|..], i, subnet, dns, detected, ok)
    ensures ok ==> Usable(subnet, dns) && host.k == Configured(old(host.k), PlanOf(i, subnet, detected), dns)
    ensures ok ==> InPlace(host.k, i, subnet.addr, detected, dns)
    ensures ok && dns.Forward? ==> host.loaded == host.k.dropIns
    ensures host.faults == old(host.faults) && Usable(subnet, dns) ==> ok
  {
    hide Framed, Tidy, Free, Wired, WithDns, Configured, InPlace, Progress, Halted, ByTurns, DnsCalls;
    ghost var k0, start, asked := host.k, |host.history|, |host.log|;
    FramedSelf(k0, i);
    var addresses := SubnetAddresses(subnet);
    if addresses.Err? {
      return false;
    }
    var p := PlanOf(i, subnet, detected);
    ok := PreClean(host, p, k0, start, asked);
    if !ok {
      StoppedEarly(host.log, asked, i, subnet, dns, detected);
      return;
    }
    ghost var k1 := host.k;
    CalmIsTidy(host, k0, i, start);
    ok := Wire(host, p, k0, start, asked);
    if !ok {
      StoppedEarly(host.log, asked, i, subnet, dns, detected);
      return;
    }
    ghost var log := host.log;
    ok := SetupDns(host, i, p.host, dns, k0, start);
    AllTurnsDone(log, asked, i, subnet, dns, detected, host.log, ok);
    if ok {
      ConfiguredFromFree(k0, k1, p, dns);
      ConfiguredIsInPlace(k0, i, subnet, detected, dns);
    }
  }

  lemma FramedSelf(k: Kernel, i: string)
    requires Tidy(k)
    ensures Framed(k, k, i)
  {}

  // ---------- Teardown -----------------------------------------------------------

  datatype TeardownStep = DropInStep | ReloadStep | ResolvStep | LinkStep | SpaceStep

  lemma TeardownStrips(k: Kernel, p: Plan)
    requires Tidy(k)
    ensures var files := After(After(k, RmDropIn(DropInName(p.instance))), RmResolv(p.instance));
      After(After(files, DelLink(HostVeth(p.instance))), DelSpace(p.Ns())) == Strip(k, p.instance)
  {
    hide Tidy, NetnsName, HostVeth, RunnerVeth, DropInName, Kin;
    var i := p.instance;
    var files := After(After(k, RmDropIn(DropInName(i))), RmResolv(i));
    assert files.dropIns == k.dropIns - {DropInName(i)} && files.resolvs == k.resolvs - {i};
    assert files.links == k.links && files.spaces == k.spaces;
    FilesTidy(k, files);
    CleanupStrips(files, p);
    assert OwnedLinks(files, i) == OwnedLinks(k, i);
    assert files.dropIns - {DropInName(i)} == files.dropIns && files.resolvs - {i} == files.resolvs;
  }

  lemma FilesTidy(a: Kernel, b: Kernel)
    requires Tidy(a) && a.links == b.links && a.spaces == b.spaces
    ensures Tidy(b)
  {
    hide Kin;
  }

  lemma CleanupStrips(k: Kernel, p: Plan)
    requires Tidy(k)
    ensures var after := After(After(k, DelLink(HostVeth(p.instance))), DelSpace(p.Ns()));
      after == k.(links := k.links - OwnedLinks(k, p.instance), spaces := k.spaces - {p.Ns()})
  {
    hide Strip, Apply, NetnsName, HostVeth, RunnerVeth, Free, Owned, Tidy;
    var i := p.instance;
    var m := After(k, DelLink(HostVeth(i)));
    var after := After(m, DelSpace(p.Ns()));
    CleanupIsOfInstance(p);
    VerbIsFramed(k, DelLink(HostVeth(i)), i);
    AfterIsFramed(k, DelLink(HostVeth(i)), i);
    AfterIsFramed(m, DelSpace(p.Ns()), i);
    FramedTrans(k, m, after, i);
    CleanupFrees(k, p);
    CleanupFiles(k, DelLink(HostVeth(i)));
    CleanupFiles(m, DelSpace(p.Ns()));
    FreeOwnsNothing(after, p);
    StripLinks(k, after, i);
  }

  lemma CleanupFiles(k: Kernel, v: Verb)
    requires v.DelLink? || v.DelSpace?
    ensures After(k, v).dropIns == k.dropIns && After(k, v).resolvs == k.resolvs
  {}

  lemma AfterIsFramed(k: Kernel, v: Verb, i: string)
    requires Tidy(k) && OfInstance(v, i)
    ensures Framed(k, After(k, v), i) && Tidy(After(k, v))
  {
    hide Tidy, OfInstance, Apply, Strip;
    VerbIsFramed(k, v, i);
  }

  lemma FreeOwnsNothing(k: Kernel, p: Plan)
    requires Tidy(k) && Free(k, p)
    ensures OwnedLinks(k, p.instance) == {} && p.Ns() !in k.spaces
  {
    hide NetnsName, HostVeth, RunnerVeth, Tidy;
    LinksAreInSpaces(k);
  }

  lemma StripLinks(k: Kernel, after: Kernel, i: string)
    requires Strip(after, i) == Strip(k, i) && OwnedLinks(after, i) == {} && NetnsName(i) !in after.spaces
    ensures after.links == k.links - OwnedLinks(k, i) && after.spaces == k.spaces - {NetnsName(i)}
  {
    hide OwnedLinks, NetnsName, DropInName;
    assert after.links - {} == after.links;
    assert after.spaces - {NetnsName(i)} == after.spaces;
  }

  function FileSteps(reloads: bool): seq<TeardownStep> {
    [DropInStep] + (if reloads then [ReloadStep] else []) + [ResolvStep]
  }

  /** The steps of a teardown, all of them. */
  function TeardownSteps(reloads: bool): seq<TeardownStep> {
    FileSteps(reloads) + [LinkStep] + [SpaceStep]
  }

  /** This call carries out that step. */
  predicate Answers(c: Call, step: TeardownStep, i: string) {
    match step
    case DropInStep => c.Tool? && c.verb == RmDropIn(DropInName(i))
    case ReloadStep => c.Reloaded?
    case ResolvStep => c.Tool? && c.verb == RmResolv(i)
    case LinkStep => c.Tool? && c.verb == DelLink(HostVeth(i))
    case SpaceStep => c.Tool? && c.verb == DelSpace(NetnsName(i))
  }

  /** The calls took the kernel from `k0` to `k`, and nothing else did. */
  predicate Linked(calls: seq<Call>, k0: Kernel, k: Kernel) {
    if calls == [] then k == k0
    else
      var n := |calls| - 1;
      var c := calls[n];
      Sound(c) && if c.Tool? then c.after == k && Linked(calls[..n], k0, c.before) else Linked(calls[..n], k0, k)
  }

  /** `firstErr` is the step of the first call that failed. */
  predicate Reported(firstErr: Option<TeardownStep>, calls: seq<Call>, steps: seq<TeardownStep>)
    requires |calls| == |steps|
  {
    match firstErr
    case None => forall n | 0 <= n < |calls| :: !Failed(calls[n])
    case Some(step) =>
      exists n | 0 <= n < |calls| ::
        Failed(calls[n]) && steps[n] == step && forall m | 0 <= m < n :: !Failed(calls[m])
  }

  /** These calls carried out these steps one by one, from `k0` to `k`, and `firstErr` is what is reported. */
  predicate Recorded(calls: seq<Call>, steps: seq<TeardownStep>, firstErr: Option<TeardownStep>, i: string, k0: Kernel, k: Kernel) {
    && |calls| == |steps| && (forall n | 0 <= n < |calls| :: Answers(calls[n], steps[n], i))
    && Linked(calls, k0, k) && Reported(firstErr, calls, steps)
  }

  predicate AllSucceeded(calls: seq<Call>) {
    forall c | c in calls :: Succeeded(c)
  }

  predicate AllGone(calls: seq<Call>) {
    forall c | c in calls :: Gone(c)
  }

  lemma NothingRecorded(i: string, k: Kernel)
    ensures Recorded([], [], None, i, k, k)
  {}

  lemma RecordMore(calls: seq<Call>, steps: seq<TeardownStep>, firstErr: Option<TeardownStep>, i: string, k0: Kernel, k: Kernel,
                   c: Call, step: TeardownStep, k': Kernel)
    requires Recorded(calls, steps, firstErr, i, k0, k) && Answers(c, step, i) && Sound(c)
    requires if c.Tool? then c.before == k && c.after == k' else k' == k
    ensures Recorded(calls + [c], steps + [step], if firstErr.None? && Failed(c) then Some(step) else firstErr, i, k0, k')
  {
    hide Answers, Sound, Failed;
    assert (calls + [c])[..|calls|] == calls;
    var more, all := calls + [c], steps + [step];
    assert more[|calls|] == c && all[|calls|] == step;
    if firstErr.Some? {
      var n :| 0 <= n < |calls| && Failed(calls[n]) && steps[n] == firstErr.value && forall m | 0 <= m < n :: !Failed(calls[m]);
      assert Failed(more[n]) && all[n] == firstErr.value;
    }
  }

  lemma Joined(a: seq<Call>, c: Call)
    ensures AllSucceeded(a + [c]) <==> AllSucceeded(a) && Succeeded(c)
    ensures AllGone(a + [c]) <==> AllGone(a) && Gone(c)
  {
    hide Succeeded, Gone;
    assert forall d :: d in a + [c] <==> d in a || d == c;
  }

  /** The file steps of a teardown. */
  method TeardownFiles(host: Host, i: string, forwarded: bool, ghost k0: Kernel, ghost start: nat)
      returns (firstErr: Option<TeardownStep>, ghost calls: seq<Call>)
    requires host.Calm(k0, i, start)
    modifies host
    ensures host.Calm(k0, i, start) && old(host.history) <= host.history && host.faults >= old(host.faults)
    ensures host.log == old(host.log) + calls
    ensures Recorded(calls, FileSteps(forwarded), firstErr, i, old(host.k), host.k)
    ensures AllGone(calls) || firstErr.None? ==> host.k == After(After(old(host.k), RmDropIn(DropInName(i))), RmResolv(i))
    ensures host.faults == old(host.faults) ==>
      firstErr.None? && AllSucceeded(calls) && (forwarded ==> host.loaded == host.k.dropIns)
  {
    hide Framed, OfInstance, Apply, After, DropInName, Host.Calm, Recorded, Sound, CleanupAccepts, Succeeded, AllGone,
      AllSucceeded;
    CleanupIsOfInstance(Plan(i, 0, 0, 0));
    ghost var k := host.k;
    NothingRecorded(i, k);
    NoneCalled();
    firstErr, calls := None, [];
    ghost var steps := [];
    var ok;
    ghost var c;
    ok, c := RemoveIfExists(host, RmDropIn(DropInName(i)), i, k0, start);
    RecordMore(calls, steps, firstErr, i, k, k, c, DropInStep, host.k);
    Joined(calls, c);
    calls, steps := calls + [c], steps + [DropInStep];
    if !ok {
      firstErr := Some(DropInStep);
    }
    ghost var mid := host.k;
    if forwarded {
      var status := ReloadCalmly(host, i, k0, start);
      ReloadedIsSound(status);
      RecordMore(calls, steps, firstErr, i, k, mid, Reloaded(status), ReloadStep, mid);
      Joined(calls, Reloaded(status));
      calls, steps := calls + [Reloaded(status)], steps + [ReloadStep];
      if status.None? && firstErr.None? {
        firstErr := Some(ReloadStep);
      }
    }
    RemovalRemoves(mid, i);
    ok, c := RemoveIfExists(host, RmResolv(i), i, k0, start);
    RecordMore(calls, steps, firstErr, i, k, mid, c, ResolvStep, host.k);
    Joined(calls, c);
    calls, steps := calls + [c], steps + [ResolvStep];
    if !ok && firstErr.None? {
      firstErr := Some(ResolvStep);
    }
    assert steps == FileSteps(forwarded);
  }

  lemma NoneCalled()
    ensures AllSucceeded([]) && AllGone([])
  {}

  lemma ReloadedIsSound(status: Option<bool>)
    ensures Sound(Reloaded(status)) && Succeeded(Reloaded(status)) && Gone(Reloaded(status))
  {}

  /** The kernel steps of a teardown, whatever went wrong before. */
  method TeardownLinks(host: Host, i: string, before: Option<TeardownStep>, ghost earlier: seq<Call>, ghost steps: seq<TeardownStep>,
                       ghost from: Kernel, ghost k0: Kernel, ghost start: nat)
      returns (firstErr: Option<TeardownStep>, ghost calls: seq<Call>)
    requires host.Calm(k0, i, start) && Recorded(earlier, steps, before, i, from, host.k)
    modifies host
    ensures host.Calm(k0, i, start) && old(host.history) <= host.history && host.faults >= old(host.faults)
    ensures host.log == old(host.log) + calls && host.loaded == old(host.loaded)
    ensures Recorded(earlier + calls, steps + [LinkStep] + [SpaceStep], firstErr, i, from, host.k)
    ensures host.k.dropIns == old(host.k.dropIns) && host.k.resolvs == old(host.k.resolvs)
    ensures firstErr.None? ==> before.None?
    ensures AllGone(calls) ==> host.k == After(After(old(host.k), DelLink(HostVeth(i))), DelSpace(NetnsName(i)))
    ensures host.faults == old(host.faults) ==> firstErr == before && AllSucceeded(calls)
  {
    hide Framed, OfInstance, Apply, After, NetnsName, HostVeth, Host.Calm, Recorded, CleanupAccepts, Succeeded, AllGone,
      AllSucceeded;
    CleanupIsOfInstance(Plan(i, 0, 0, 0));
    NoneCalled();
    firstErr := before;
    ghost var c;
    var ok;
    ghost var k := host.k;
    CleanupKeepsFiles(k, DelLink(HostVeth(i)));
    ok, c := RunCleanup(host, DelLink(HostVeth(i)), i, k0, start);
    RecordMore(earlier, steps, before, i, from, k, c, LinkStep, host.k);
    Joined([], c);
    calls := [] + [c];
    assert calls == [c];
    if !ok && firstErr.None? {
      firstErr := Some(LinkStep);
    }
    ghost var mid, err := host.k, firstErr;
    CleanupKeepsFiles(mid, DelSpace(NetnsName(i)));
    ok, c := RunCleanup(host, DelSpace(NetnsName(i)), i, k0, start);
    RecordMore(earlier + calls, steps + [LinkStep], err, i, from, mid, c, SpaceStep, host.k);
    Joined(calls, c);
    assert earlier + (calls + [c]) == earlier + calls + [c];
    calls := calls + [c];
    if !ok && firstErr.None? {
      firstErr := Some(SpaceStep);
    }
  }

  /** Does a teardown reload systemd-resolved? `config` is the instance's stored choice of name resolution,
      if it can be read. */
  predicate Reloads(config: Option<Dns>) {
    config.None? || config.value.Forward?
  }

  /** `teardown_inner`: every step runs and the first error is reported. What was removed is gone, all of it
      if every verb succeeded or found nothing to do. */
  method TeardownInner(host: Host, i: string, config: Option<Dns>) returns (firstErr: Option<TeardownStep>, ghost calls: seq<Call>)
    requires host.Valid() && Tidy(host.k)
    modifies host
    ensures host.Calm(old(host.k), i, |old(host.history)|) && old(host.history) <= host.history
    ensures host.faults >= old(host.faults) && host.log == old(host.log) + calls
    ensures Recorded(calls, TeardownSteps(Reloads(config)), firstErr, i, old(host.k), host.k)
    // It reloads unless the instance is known to have static servers.
    ensures (exists c :: c in calls && c.Reloaded?) <==> config.None? || config.value == Forward
    ensures firstErr.None? ==> DropInName(i) !in host.k.dropIns && i !in host.k.resolvs
    ensures AllSucceeded(calls) ==> AllGone(calls)
    ensures AllGone(calls) ==> host.k == Strip(old(host.k), i)
    ensures host.faults == old(host.faults) ==> firstErr.None? && AllSucceeded(calls)
    ensures host.faults == old(host.faults) && Reloads(config) ==> host.loaded == host.k.dropIns
  {
    hide Framed, Tidy, Apply, After, Strip, NetnsName, HostVeth, RunnerVeth, DropInName, Recorded, AllSucceeded, AllGone, Host.Calm;
    ghost var k0, start := host.k, |host.history|;
    CalmBegins(host, i);
    TeardownStrips(k0, Plan(i, 0, 0, 0));
    RemovalRemoves(k0, i);
    RemovalRemoves(After(k0, RmDropIn(DropInName(i))), i);
    ghost var files, links;
    firstErr, files := TeardownFiles(host, i, Reloads(config), k0, start);
    firstErr, links := TeardownLinks(host, i, firstErr, files, FileSteps(Reloads(config)), k0, k0, start);
    calls := files + links;
    AllOfBoth(files, links);
    SoundIfRecorded(calls, TeardownSteps(Reloads(config)), firstErr, i, k0, host.k);
    ReloadIsCalled(calls, Reloads(config), firstErr, i, k0, host.k);
  }

  lemma ReloadIsCalled(calls: seq<Call>, reloads: bool, firstErr: Option<TeardownStep>, i: string, k0: Kernel, k: Kernel)
    requires Recorded(calls, TeardownSteps(reloads), firstErr, i, k0, k)
    ensures (exists c :: c in calls && c.Reloaded?) <==> reloads
  {
    hide Linked, Reported, HostVeth, NetnsName, DropInName;
    var steps := TeardownSteps(reloads);
    if reloads {
      assert steps[1] == ReloadStep && Answers(calls[1], steps[1], i) && calls[1] in calls;
    } else {
      forall n | 0 <= n < |calls|
        ensures calls[n].Tool?
      {
        assert steps[n] != ReloadStep && Answers(calls[n], steps[n], i);
      }
    }
  }

  lemma CalmBegins(host: Host, i: string)
    requires host.Valid() && Tidy(host.k)
    ensures host.Calm(host.k, i, |host.history|)
  {
    FramedSelf(host.k, i);
  }

  lemma AllOfBoth(a: seq<Call>, b: seq<Call>)
    ensures AllSucceeded(a + b) <==> AllSucceeded(a) && AllSucceeded(b)
    ensures AllGone(a + b) <==> AllGone(a) && AllGone(b)
  {
    hide Succeeded, Gone;
    assert forall c :: c in a + b <==> c in a || c in b;
  }

  lemma {:induction false} LinkedIsSound(calls: seq<Call>, k0: Kernel, k: Kernel)
    requires Linked(calls, k0, k)
    ensures forall c | c in calls :: Sound(c)
  {
    hide Sound;
    if calls != [] {
      var n := |calls| - 1;
      LinkedIsSound(calls[..n], k0, if calls[n].Tool? then calls[n].before else k);
      assert calls[..n] + [calls[n]] == calls;
    }
  }

  /** Success, or nothing to do, means that nothing is left. */
  lemma SoundIfRecorded(calls: seq<Call>, steps: seq<TeardownStep>, firstErr: Option<TeardownStep>, i: string, k0: Kernel, k: Kernel)
    requires Recorded(calls, steps, firstErr, i, k0, k)
    ensures AllSucceeded(calls) ==> AllGone(calls)
  {
    hide Sound, Succeeded, Gone, Linked, Answers, Failed;
    LinkedIsSound(calls, k0, k);
    forall c | c in calls && Succeeded(c)
      ensures Gone(c)
    {
      SucceededIsGone(c);
    }
  }

  // ---------- Setup with rollback -------------------------------------------------

  /** The last `n` calls. */
  function LastCalls(log: seq<Call>, n: nat): seq<Call> {
    if n <= |log| then log[|log| - n..] else log
  }

  /** All but the last `n` calls. */
  function FirstCalls(log: seq<Call>, n: nat): seq<Call> {
    if n <= |log| then log[..|log| - n] else []
  }

  /** The log ends in a whole teardown; if every verb of it succeeded or found nothing to do, or at least
      nothing is left, then the kernel is the stripped one. */
  ghost predicate RolledBack(log: seq<Call>, k0: Kernel, k: Kernel, i: string, reloads: bool) {
    var calls := LastCalls(log, |TeardownSteps(reloads)|);
    && (exists mid, firstErr :: Recorded(calls, TeardownSteps(reloads), firstErr, i, mid, k))
    && (AllSucceeded(calls) ==> AllGone(calls))
    && (AllGone(calls) ==> k == Strip(k0, i))
  }

  lemma RolledBackBy(log: seq<Call>, calls: seq<Call>, firstErr: Option<TeardownStep>, k0: Kernel, mid: Kernel, k: Kernel,
                     i: string, reloads: bool)
    requires Recorded(calls, TeardownSteps(reloads), firstErr, i, mid, k) && Strip(mid, i) == Strip(k0, i)
    requires AllSucceeded(calls) ==> AllGone(calls)
    requires AllGone(calls) ==> k == Strip(mid, i)
    ensures RolledBack(log + calls, k0, k, i, reloads)
  {
    hide AllSucceeded, AllGone, Linked, Reported, Answers, Strip;
    assert LastCalls(log + calls, |TeardownSteps(reloads)|) == calls;
  }

  /** `setup_with_ops`: a failed setup is followed by a best-effort teardown. */
  method Setup(host: Host, i: string, subnet: IpNet, dns: Dns, detected: Option<nat>, config: Option<Dns>) returns (ok: bool)
    requires host.Valid() && Tidy(host.k)
    modifies host
    ensures host.Calm(old(host.k), i, |old(host.history)|) && old(host.history) <= host.history
    ensures host.faults >= old(host.faults) && old(host.log) <= host.log
    ensures ok ==> Usable(subnet, dns) && host.k == Configured(old(host.k), PlanOf(i, subnet, detected), dns)
    ensures ok ==> InPlace(host.k, i, subnet.addr, detected, dns)
    ensures ok && dns.Forward? ==> host.loaded == host.k.dropIns
    ensures !ok ==> RolledBack(host.log, old(host.k), host.k, i, Reloads(config))
    ensures !ok ==> |host.log| >= |old(host.log)| + |TeardownSteps(Reloads(config))|
    ensures Proceeded(FirstCalls(host.log[|old(host.log)|..], if ok then 0 else |TeardownSteps(Reloads(config))|),
                      i, subnet, dns, detected, ok)
    ensures host.faults == old(host.faults) ==>
      (Usable(subnet, dns) ==> ok) && (!ok ==> host.k == Strip(old(host.k), i))
  {
    hide Tidy, Configured, InPlace, Strip, Framed, Recorded, AllSucceeded, AllGone, RolledBack, TeardownSteps, Proceeded;
    ghost var k0, before, asked := host.k, host.history, |host.log|;
    ok := SetupSteps(host, i, subnet, dns, detected);
    assert FirstCalls(host.log[asked..], 0) == host.log[asked..];
    if !ok {
      CalmIsTidy(host, k0, i, |before|);
      ghost var k, middle, log := host.k, host.history, host.log;
      ghost var calls;
      var ignored;
      ignored, calls := TeardownInner(host, i, config);
      CalmGoesOn(k0, before, middle, host.history, k, i);
      FramedMeans(k0, k, i);
      CalmIsTidy(host, k, i, |middle|);
      RolledBackBy(log, calls, ignored, k0, k, host.k, i, Reloads(config));
      RecordedLength(calls, TeardownSteps(Reloads(config)), ignored, i, k, host.k);
      assert host.log[asked..] == log[asked..] + calls;
      assert FirstCalls(log[asked..] + calls, |calls|) == log[asked..];
    }
  }

  lemma RecordedLength(calls: seq<Call>, steps: seq<TeardownStep>, firstErr: Option<TeardownStep>, i: string, k0: Kernel, k: Kernel)
    requires Recorded(calls, steps, firstErr, i, k0, k)
    ensures |calls| == |steps|
  {}

  lemma FramedMeans(k0: Kernel, k: Kernel, i: string)
    requires Framed(k0, k, i)
    ensures Tidy(k) && Strip(k, i) == Strip(k0, i)
  {
    hide Tidy, Strip;
  }

  /** Two stretches of history, one framed by the start of the other. */
  lemma CalmGoesOn(k0: Kernel, before: seq<Kernel>, middle: seq<Kernel>, history: seq<Kernel>, k: Kernel, i: string)
    requires before <= middle <= history && Framed(k0, k, i)
    requires (forall n | |before| <= n < |middle| :: Framed(k0, middle[n], i)) && Steps(middle, |before|, i)
    requires (forall n | |middle| <= n < |history| :: Framed(k, history[n], i)) && Steps(history, |middle|, i)
    ensures (forall n | |before| <= n < |history| :: Framed(k0, history[n], i)) && Steps(history, |before|, i)
    ensures forall h | Framed(k, h, i) :: Framed(k0, h, i) && Strip(h, i) == Strip(k0, i)
  {
    hide Tidy, Strip, OneVerb;
    assert forall n | 0 <= n < |middle| :: history[n] == middle[n];
    forall n | |before| <= n < |history| && 0 < n
      ensures OneVerb(history[n - 1], history[n], i)
    {
      if n < |middle| { assert OneVerb(middle[n - 1], middle[n], i); }
    }
  }

  /** Setting up twice is setting up once. */
  lemma SetupIsIdempotent(k: Kernel, p: Plan, dns: Dns)
    ensures Configured(Configured(k, p, dns), p, dns) == Configured(k, p, dns)
  {
    hide NetnsName, HostVeth, RunnerVeth, DropInName, DropInText, ResolvText;
    ScrubConfigured(k, p, dns);
  }

  lemma ScrubConfigured(k: Kernel, p: Plan, dns: Dns)
    ensures Scrub(Configured(k, p, dns), p.instance)
      == Scrub(k, p.instance).(dropIns := Configured(k, p, dns).dropIns)
  {
    hide NetnsName, HostVeth, RunnerVeth, DropInName, DropInText, ResolvText;
    var i := p.instance;
    var c := Configured(k, p, dns);
    OwnKeys(p);
    var rest := k.links - OwnedLinks(k, i);
    assert forall key :: key in OwnedLinks(c, i) <==> key == p.HostKey() || key == p.RunnerKey();
    assert c.links - OwnedLinks(c, i) == rest;
    assert c.spaces - {p.Ns()} == k.spaces - {p.Ns()};
    assert c.resolvs - {i} == k.resolvs - {i};
  }

  lemma OwnKeys(p: Plan)
    ensures Owned(p.instance, p.HostKey()) && Owned(p.instance, p.RunnerKey())
  {
    PairIsOwned(p.instance);
  }

  /** From two kernels that differ in nothing but the instance's own things, however they came about, a
      setup reaches the same state exactly when it writes the drop-in itself or finds the same one. */
  lemma SameConfiguration(a: Kernel, b: Kernel, p: Plan, dns: Dns)
    requires Strip(a, p.instance) == Strip(b, p.instance)
    ensures Configured(a, p, dns) == Configured(b, p, dns) <==>
      dns.Forward? || Only(a.dropIns, DropInName(p.instance)) == Only(b.dropIns, DropInName(p.instance))
  {
    hide NetnsName, HostVeth, RunnerVeth, DropInName, DropInText, ResolvText, Wired, OwnedLinks;
    var f := DropInName(p.instance);
    WiringKeepsFiles(Scrub(a, p.instance), p);
    WiringKeepsFiles(Scrub(b, p.instance), p);
    var text := DropInText(p.instance, p.host);
    assert a.dropIns - {f} == b.dropIns - {f};
    assert a.dropIns[f := text] == (a.dropIns - {f})[f := text];
    assert b.dropIns[f := text] == (b.dropIns - {f})[f := text];
    SameMap(a.dropIns, b.dropIns, f);
    ScrubsMeet(a, b, p);
  }

  lemma SameMap(a: map<string, string>, b: map<string, string>, f: string)
    requires a - {f} == b - {f}
    ensures a == b <==> Only(a, f) == Only(b, f)
  {
    if Only(a, f) == Only(b, f) {
      assert f in a <==> f in Only(a, f);
      assert f in b <==> f in Only(b, f);
      forall x
        ensures x in a <==> x in b
        ensures x in a ==> a[x] == b[x]
      {
        if x == f {
          assert f in a ==> Only(a, f)[f] == a[f] && Only(b, f)[f] == b[f];
        } else {
          assert x in a - {f} <==> x in b - {f};
          assert x in a ==> (a - {f})[x] == (b - {f})[x];
        }
      }
    }
  }

  lemma ScrubsMeet(a: Kernel, b: Kernel, p: Plan)
    requires Strip(a, p.instance) == Strip(b, p.instance)
    ensures Wired(Scrub(a, p.instance), p).(dropIns := map[]) == Wired(Scrub(b, p.instance), p).(dropIns := map[])
  {
    hide NetnsName, HostVeth, RunnerVeth, DropInName, OwnedLinks;
  }

  /** A drop-in that a setup with forwarded name resolution left behind is still there after a later
      setup with static servers. */
  lemma DropInOutlivesItsSetup(k: Kernel, p: Plan, servers: seq<string>)
    ensures var forwarding := Configured(k, p, Forward);
      DropInName(p.instance) in Configured(forwarding, p, Static(servers)).dropIns
    ensures DropInName(p.instance) !in Configured(Strip(k, p.instance), p, Static(servers)).dropIns
  {
    hide NetnsName, HostVeth, RunnerVeth, DropInName, DropInText, ResolvText, OwnedLinks;
  }

  // ---------- What a cleanup verb swallows ------------------------------------------

  lemma StartIsContained(sub: string, rest: string)
    ensures Contains(sub + rest, sub)
  {}

  lemma MarkerIsEnough(n: nat, rest: string)
    requires n < |ABSENT_MARKERS|
    ensures LooksAbsent(ABSENT_MARKERS[n] + rest)
  {
    hide Contains;
    StartIsContained(ABSENT_MARKERS[n], rest);
  }

  /** What `ip netns del` says of a namespace file in use. */
  function BusyMessage(ns: string): string {
    NO_SPACE_FILE + (" \"/var/run/netns/" + ns + "\": Device or resource busy")
  }

  /** It is taken for an absent one: the verb is reported done and the namespace is still there. */
  lemma BusyNamespaceIsSwallowed(k: Kernel, i: string) returns (c: Call)
    requires NetnsName(i) in k.spaces
    ensures c == Tool(DelSpace(NetnsName(i)), k, k, Exited(false, BusyMessage(NetnsName(i))))
    ensures Sound(c) && !Failed(c) && !Gone(c)
  {
    hide NetnsName, LooksAbsent;
    var ns := NetnsName(i);
    c := Tool(DelSpace(ns), k, k, Exited(false, BusyMessage(ns)));
    MarkerIsEnough(1, " \"/var/run/netns/" + ns + "\": Device or resource busy");
    assert ns !in After(k, DelSpace(ns)).spaces;
  }
}
