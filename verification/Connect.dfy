/** The failover sweep: Connect, connectHost and the socket ownership of handshake (cubrid/conn.go). */
module Connect {
  import opened AltHost

  datatype Address = Address(host: string, port: int)

  /** How one attempt goes, step by step; a step is only reached if the ones before it succeeded. */
  datatype Attempt = Attempt(
    dialed: bool,        // the first dial
    greeted: bool,       // greeting written and answered
    port: int,           // the answer: negative rejects, positive redirects, zero stays
    redialed: bool,      // the dial to that port
    ssl: bool,           // TLS is configured
    tlsOk: bool,         // its handshake
    authenticated: bool, // database info accepted and the reply parsed
    ctxDead: bool)       // the caller's context is dead after the attempt

  /** The network: how the k-th attempt goes if it is made at an address. */
  type World = (nat, Address) -> Attempt

  predicate Works(a: Attempt)
  {
    a.dialed && a.greeted && a.port >= 0 && (a.port > 0 ==> a.redialed) && (a.ssl ==> a.tlsOk) && a.authenticated
  }

  /** The addresses one attempt dials: its target, then the same host at the port it is redirected to. */
  function Dials(t: Address, a: Attempt): (ds: seq<Address>)
  {
    [t] + if a.dialed && a.greeted && a.port > 0 then [Address(t.host, a.port)] else []
  }

  /** Attempts at these targets, in this order and nothing else. */
  function DialsOf(world: World, ts: seq<Address>): (ds: seq<Address>)
  {
    if ts == [] then []
    else
      var k, t := |ts| - 1, ts[|ts| - 1];
      DialsOf(world, ts[..k]) + Dials(t, world(k, t))
  }

  lemma DialsSnoc(world: World, ts: seq<Address>, t: Address)
    ensures DialsOf(world, ts + [t]) == DialsOf(world, ts) + Dials(t, world(|ts|, t))
  {
    assert (ts + [t])[..|ts|] == ts;
  }

  /** The sockets of the process, and every address it has dialled. */
  class Sockets {
    var next: nat
    var open: set<nat>
    var dialed: seq<Address>

    ghost predicate Valid()
      reads this
    {
      forall s :: s in open ==> s < next
    }

    constructor ()
      ensures Valid() && open == {} && dialed == []
    {
      next, open, dialed := 0, {}, [];
    }

    /** A dial leaves a new open socket exactly when it succeeds. */
    method Dial(at: Address, succeeds: bool) returns (s: nat)
      requires Valid()
      modifies this
      ensures Valid() && dialed == old(dialed) + [at]
      ensures s !in old(open) && open == if succeeds then old(open) + {s} else old(open)
    {
      s := next;
      dialed := dialed + [at];
      if succeeds {
        open := open + {s};
        next := next + 1;
      }
    }

    /** Closing twice is harmless. */
    method Close(s: nat)
      requires Valid()
      modifies `open
      ensures Valid() && open == old(open) - {s}
    {
      open := open - {s};
    }
  }

  /** handshake: on a redirect the first socket is closed and, if the dial succeeds, replaced. */
  method Handshake(net: Sockets, host: string, nc0: nat, a: Attempt) returns (nc: nat, ok: bool)
    requires net.Valid() && nc0 in net.open
    modifies net
    ensures net.Valid()
    ensures ok <==> a.greeted && a.port >= 0 && (a.port > 0 ==> a.redialed) && (a.ssl ==> a.tlsOk) && a.authenticated
    ensures ok ==> nc in net.open && (nc == nc0 || nc !in old(net.open))
    ensures net.open - {nc} == old(net.open) - {nc0}
    ensures net.dialed == old(net.dialed) + if a.greeted && a.port > 0 then [Address(host, a.port)] else []
  {
    nc := nc0;
    if !a.greeted || a.port < 0 {
      return nc, false;
    }
    if a.port > 0 {
      net.Close(nc);
      var s := net.Dial(Address(host, a.port), a.redialed);
      if !a.redialed {
        return nc, false;
      }
      nc := s;
    }
    if a.ssl && !a.tlsOk {
      return nc, false;
    }
    return nc, a.authenticated;
  }

  /** connectHost: exactly one more open socket on success, none on failure. */
  method ConnectHost(net: Sockets, t: Address, a: Attempt) returns (nc: nat, ok: bool)
    requires net.Valid()
    modifies net
    ensures net.Valid() && ok == Works(a) && net.dialed == old(net.dialed) + Dials(t, a)
    ensures ok ==> nc !in old(net.open) && net.open == old(net.open) + {nc}
    ensures !ok ==> net.open == old(net.open)
  {
    nc := net.Dial(t, a.dialed);
    if !a.dialed {
      return nc, false;
    }
    nc, ok := Handshake(net, t.host, nc, a);
    if !ok {
      net.Close(nc);
    }
  }

  datatype Outcome =
    | Connected(socket: nat, target: Address)
    | BadEntry
    | Unreachable(errors: seq<Address>)

  function Parsed(e: Entry): (a: Address) { if e.Entry? then Address(e.host, e.port) else Address("", 0) }

  /** The targets of a sweep: the primary, then every alternative in order. */
  function Targets(primary: Address, alts: seq<string>): (ts: seq<Address>)
    ensures |ts| == |alts| + 1 && ts[0] == primary
    ensures forall i :: 0 <= i < |alts| && SplitAltHost(alts[i]).Entry? ==>
              ts[i + 1] == Address(SplitAltHost(alts[i]).host, SplitAltHost(alts[i]).port)
  {
    [primary] + seq(|alts|, i requires 0 <= i < |alts| => Parsed(SplitAltHost(alts[i])))
  }

  predicate AllParse(alts: seq<string>) { forall i :: 0 <= i < |alts| ==> SplitAltHost(alts[i]).Entry? }

  /** Target k is the first that works, and no attempt before it ended the sweep. */
  ghost predicate FirstWorking(world: World, ts: seq<Address>, k: nat) {
    k < |ts| && Works(world(k, ts[k])) && NoneWorks(world, ts, k)
  }

  ghost predicate NoneWorks(world: World, ts: seq<Address>, k: nat) {
    k <= |ts| && forall i :: 0 <= i < k ==> !Works(world(i, ts[i])) && !world(i, ts[i]).ctxDead
  }

  method ParseTargets(primary: Address, alts: seq<string>) returns (ok: bool, targets: seq<Address>)
    ensures ok <==> AllParse(alts)
    ensures ok ==> targets == Targets(primary, alts)
  {
    targets := [primary];
    for i := 0 to |alts|
      invariant targets == Targets(primary, alts)[..i + 1]
      invariant forall j :: 0 <= j < i ==> SplitAltHost(alts[j]).Entry?
    {
      var e := SplitAltHost(alts[i]);
      if e.Rejected? {
        return false, [];
      }
      TargetAt(primary, alts, i);
      targets := targets + [Address(e.host, e.port)];
    }
    ok := true;
  }

  lemma TargetAt(primary: Address, alts: seq<string>, i: nat)
    requires i < |alts|
    ensures var ts := Targets(primary, alts);
            ts[..i + 2] == ts[..i + 1] + [Parsed(SplitAltHost(alts[i]))]
  {
  }

  /** Where a sweep that has reached target k ends: after `tried` attempts, connected or not. */
  datatype End = End(tried: nat, connected: bool)

  function EndOf(world: World, ts: seq<Address>, k: nat): (e: End)
    requires k <= |ts|
    decreases |ts| - k
  {
    if k == |ts| then End(k, false)
    else
      var a := world(k, ts[k]);
      if Works(a) then End(k + 1, true) else if a.ctxDead then End(k + 1, false) else EndOf(world, ts, k + 1)
  }

  /**
   A sweep connects exactly when there is a first target that works with a live context before it, and it
   ends there; otherwise it has tried everything, or up to the attempt after which the context was dead.
   */
  lemma {:induction false} EndMeans(world: World, ts: seq<Address>, k: nat)
    requires k <= |ts| && NoneWorks(world, ts, k)
    ensures var e := EndOf(world, ts, k);
            && k <= e.tried <= |ts| && (k < |ts| ==> k < e.tried)
            && (e.connected ==> e.tried >= 1 && FirstWorking(world, ts, e.tried - 1))
            && (!e.connected ==> forall j :: !FirstWorking(world, ts, j))
            && (!e.connected && e.tried < |ts| ==> e.tried >= 1 && world(e.tried - 1, ts[e.tried - 1]).ctxDead)
            && (!e.connected ==> forall i :: 0 <= i < e.tried ==> !Works(world(i, ts[i])))
    decreases |ts| - k
  {
    if k < |ts| {
      var a := world(k, ts[k]);
      if !Works(a) && !a.ctxDead {
        EndMeans(world, ts, k + 1);
      }
    }
  }

  /** The loop of Connect: attempts at the targets in order, each failed socket closed. */
  method SweepTargets(net: Sockets, ts: seq<Address>, world: World) returns (r: Outcome, tried: nat)
    requires net.Valid()
    modifies net
    ensures net.Valid() && !r.BadEntry? && tried <= |ts| && EndOf(world, ts, 0) == End(tried, r.Connected?)
    ensures net.dialed == old(net.dialed) + DialsOf(world, ts[..tried])
    ensures r.Connected? ==> tried >= 1 && r.target == ts[tried - 1]
    ensures r.Connected? ==> net.open == old(net.open) + {r.socket} && r.socket !in old(net.open)
    ensures r.Unreachable? ==> net.open == old(net.open) && r.errors == ts[..tried]
  {
    tried := 0;
    ghost var before := net.dialed;
    assert before + DialsOf(world, ts[..0]) == before;
    var errs: seq<Address> := [];
    while tried < |ts|
      invariant tried <= |ts| && net.Valid() && net.open == old(net.open)
      invariant errs == ts[..tried] && EndOf(world, ts, tried) == EndOf(world, ts, 0)
      invariant net.dialed == before + DialsOf(world, ts[..tried])
    {
      var t := ts[tried];
      NextTarget(world, ts, tried, before);
      var nc, ok := ConnectHost(net, t, world(tried, t));
      tried := tried + 1;
      if ok {
        return Connected(nc, t), tried;
      }
      errs := errs + [t];
      if world(tried - 1, t).ctxDead {
        return Unreachable(errs), tried;
      }
    }
    return Unreachable(errs), tried;
  }

  /**
   Connect. It dials nothing before every alternative parses, then tries the primary and the
   alternatives in that order: the addresses dialled are those of the attempts at a prefix of the
   targets. It returns the first target that works and otherwise one error per attempt, in order;
   it stops early only when the caller's context is dead. One socket stays open on success, none on error.
   */
  method Sweep(net: Sockets, primary: Address, alts: seq<string>, world: World) returns (r: Outcome, tried: nat)
    requires net.Valid()
    modifies net
    ensures net.Valid() && tried <= |alts| + 1
    ensures net.dialed == old(net.dialed) + DialsOf(world, Targets(primary, alts)[..tried])
    ensures r.Connected? ==> net.open == old(net.open) + {r.socket} && r.socket !in old(net.open)
    ensures !r.Connected? ==> net.open == old(net.open)
    ensures r.BadEntry? <==> !AllParse(alts)
    ensures r.BadEntry? ==> tried == 0
    ensures !r.BadEntry? ==> (r.Connected? <==> exists k :: FirstWorking(world, Targets(primary, alts), k))
    ensures r.Connected? ==> tried >= 1 && FirstWorking(world, Targets(primary, alts), tried - 1)
                             && r.target == Targets(primary, alts)[tried - 1]
    ensures r.Unreachable? ==>
              && tried >= 1 && r.errors == Targets(primary, alts)[..tried]
              && (forall i :: 0 <= i < tried ==> !Works(world(i, Targets(primary, alts)[i])))
              && (tried < |alts| + 1 ==> world(tried - 1, Targets(primary, alts)[tried - 1]).ctxDead)
  {
    tried := 0;
    ghost var all := Targets(primary, alts);
    EndMeans(world, all, 0);
    if |alts| == 0 {
      r, tried := SweepOne(net, primary, world);
      assert all == [primary];
      return;
    }
    var parsed, targets := ParseTargets(primary, alts);
    if !parsed {
      assert net.dialed + DialsOf(world, all[..0]) == net.dialed;
      return BadEntry, 0;
    }
    r, tried := SweepTargets(net, targets, world);
  }

  /** Without alternatives there is one attempt and one error. */
  method SweepOne(net: Sockets, primary: Address, world: World) returns (r: Outcome, tried: nat)
    requires net.Valid()
    modifies net
    ensures net.Valid() && !r.BadEntry? && tried == 1 && EndOf(world, [primary], 0) == End(1, r.Connected?)
    ensures net.dialed == old(net.dialed) + DialsOf(world, [primary][..1])
    ensures r.Connected? ==> r.target == primary
    ensures r.Connected? ==> net.open == old(net.open) + {r.socket} && r.socket !in old(net.open)
    ensures r.Unreachable? ==> net.open == old(net.open) && r.errors == [primary][..1]
  {
    NextTarget(world, [primary], 0, net.dialed);
    assert net.dialed + DialsOf(world, [primary][..0]) == net.dialed;
    var nc, ok := ConnectHost(net, primary, world(0, primary));
    tried := 1;
    r := if ok then Connected(nc, primary) else Unreachable([primary]);
  }

  lemma NextTarget(world: World, ts: seq<Address>, k: nat, before: seq<Address>)
    requires k < |ts|
    ensures ts[..k + 1] == ts[..k] + [ts[k]]
    ensures before + DialsOf(world, ts[..k + 1]) == (before + DialsOf(world, ts[..k])) + Dials(ts[k], world(k, ts[k]))
  {
    assert ts[..k + 1] == ts[..k] + [ts[k]];
    DialsSnoc(world, ts[..k], ts[k]);
  }
}
