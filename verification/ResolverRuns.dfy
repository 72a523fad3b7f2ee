/**
 * Runs of the resolver: any sequence of calls, replies, timeouts and changes of the servers, from the
 * empty resolver on.
 */
module ResolverRuns {
  import opened Options
  import opened Resolvers

  datatype Op =
    | Resolve(h: nat)
    | Cancel(h: nat)
    | Timeout(h: nat)
    | Reply(h: nat, reply: Reply)
    | SendProbe(s: nat, h: nat)
    | Answer(s: nat, answer: ProbeAnswer)
    | Ready(s: nat)
    | AddServer(s: nat)
    | Clear
    | SetMax(max: int)
    | Resume

  /** The handle of a request is not that of an outstanding probe. */
  predicate NoProbe(r: Resolver, h: nat)
    reads r
  {
    forall s :: s in r.servers ==> r.servers[s].probe != Some(h)
  }

  /** When can it come to this?  Handles are unique, requests of the user are no probes, and a probe is answered
      when its request is over. */
  predicate Enabled(r: Resolver, op: Op)
    reads r
  {
    match op
    case Resolve(h) => h !in r.reqs && NoProbe(r, h)
    case Cancel(h) => NoProbe(r, h)
    case Timeout(h) => h in r.reqs && r.reqs[h].ns.Some?
    case Reply(h, _) => h in r.reqs && r.reqs[h].ns.Some?
    case SendProbe(s, h) =>
      && s in r.servers && r.servers[s].probe == None && !r.servers[s].up
      && h !in r.reqs && NoProbe(r, h) && r.inflight < NO_ID
    case Answer(s, _) => s in r.servers && r.servers[s].probe.Some? && r.servers[s].probe.value !in r.reqs
    case Ready(s) => s in r.servers
    case AddServer(s) => s !in r.servers
    case Clear => r.waiting == [] || forall s :: s in r.servers ==> r.servers[s].probe == None
    case SetMax(max) => max <= NO_ID
    case Resume => true
  }

  /** The requests are those of the user and outstanding probes, and none of the user's is missing. */
  ghost predicate Accounted(r: Resolver, live: set<nat>)
    reads r
  {
    && live <= r.reqs.Keys <= live + Probes(r.servers)
    && live !! Probes(r.servers)
  }

  /** The user's requests after an operation: a new one, without the one it is about if that is over. */
  ghost function Live(live: set<nat>, op: Op, reqs: set<nat>): set<nat> {
    match op
    case Resolve(h) => live + {h}
    case Cancel(h) => live - {h}
    case Timeout(h) => if h in reqs then live else live - {h}
    case Reply(h, _) => if h in reqs then live else live - {h}
    case _ => live
  }

  /** What a run keeps with every operation. */
  twostate predicate Kept(r: Resolver, op: Op, live: set<nat>)
    reads r
  {
    && r.Valid() && Accounted(r, Live(live, op, r.reqs.Keys))
    && (old(r.Busy()) && !op.AddServer? && !op.SetMax? ==> r.Busy())
    && (op.Resume? ==> r.Busy())
    && (old(AllSent(r.reqs)) ==> AllSent(r.reqs))
    && (r.inflight <= r.maxInflight || r.inflight <= old(r.inflight) + if op.SendProbe? then 1 else 0)
    && Probes(r.servers) <= old(Probes(r.servers)) + if op.SendProbe? then {op.h} else {}
  }

  /** What an operation is for. */
  twostate predicate Did(r: Resolver, op: Op)
    reads r
  {
    match op
    case Resolve(h) => h in r.reqs
    case Cancel(h) => h !in r.reqs
    case Timeout(h) => h in old(r.reqs) && (h in r.reqs <==> old(r.reqs)[h].txCount < r.maxRetransmits)
    case Reply(h, reply) =>
      && h in old(r.reqs)
      && (reply.Good? || reply.OtherError? ==> h !in r.reqs)
      && (reply.ServerFailed? ==> (h in r.reqs <==> old(r.reqs)[h].txCount < r.maxRetransmits))
      && (reply.Refused? && h in r.reqs ==> r.reqs[h].reissueCount == old(r.reqs)[h].reissueCount + 1)
    case SendProbe(s, h) => h in r.reqs && s in r.servers && r.servers[s].probe == Some(h)
    case Answer(s, answer) =>
      s in r.servers && (!answer.Cancelled? ==> r.servers[s].probe == None) && (answer.Answered? ==> r.servers[s].up)
    case Ready(s) =>
      && (Up(r.servers) == old(Up(r.servers)) ==> NoneLeft(r.reqs, r.servers))
      && s in r.servers && (r.servers[s].choked ==> BlockedIn(r.socket, old(r.tries), r.tries))
    case AddServer(s) => s in r.servers && r.servers[s].up
    case Clear => r.servers == map[]
    case SetMax(max) => r.maxInflight == if max < 1 then 1 else max
    case Resume => r.Busy()
  }

  /** Operations on a single request of the user. */
  method PerformOnRequest(r: Resolver, op: Op, ghost live: set<nat>)
    requires r.Valid() && Enabled(r, op) && Accounted(r, live)
    requires op.Resolve? || op.Cancel? || op.Timeout? || op.Reply?
    modifies r
    ensures Kept(r, op, live) && Did(r, op)
  {
    hide Resolver.Valid, Up, CountedAt, StillInflight, Resolver.Busy, Probes, NoneRevived, ProbesFade;
    hide AllSent, OnGood, Resolver.RefusedBy;
    ghost var before := r.servers;
    HandleFree(r, op);
    match op
    case Resolve(h) =>
      r.Resolve(h);
      SameHandles(before, r.servers);
    case Cancel(h) =>
      r.Cancel(h);
      SameHandles(before, r.servers);
    case Timeout(h) =>
      ghost var s := r.Timeout(h);
      SameHandles(before, r.servers);
    case Reply(h, reply) =>
      r.ReplyHandle(h, reply);
      Faded(before, r.servers, r.reqs);
    case _ =>
  }

  lemma HandleFree(r: Resolver, op: Op)
    requires Enabled(r, op)
    ensures op.Resolve? || op.Cancel? ==> op.h !in Probes(r.servers)
  {
  }

  lemma Faded(a: map<nat, Server>, b: map<nat, Server>, reqs: map<nat, Request>)
    requires ProbesFade(a, b, reqs)
    ensures Probes(b) <= Probes(a) && forall h :: h in Probes(a) && h !in Probes(b) ==> h !in reqs
  {
    forall h | h in Probes(a) && h !in Probes(b)
      ensures h !in reqs
    {
      var k :| k in a && a[k].probe == Some(h);
      assert b[k].probe != Some(h);
    }
  }

  /** What happens to a server. */
  method PerformOnServer(r: Resolver, op: Op, ghost live: set<nat>)
    requires r.Valid() && Enabled(r, op) && Accounted(r, live)
    requires op.SendProbe? || op.Answer? || op.Ready?
    modifies r
    ensures Kept(r, op, live) && Did(r, op)
  {
    hide Resolver.Valid, Up, StillInflight, Probes, SameProbes, NoneRevived, SameQueues, SentOnce, AllSent, Handled;
    ghost var before := r.servers;
    match op
    case SendProbe(s, h) =>
      r.SendProbe(s, h);
      ProbeAdded(before, r.servers, s, h);
    case Answer(s, answer) =>
      r.ProbeCallback(s, answer);
      ProbeOver(before, r.servers, s);
    case Ready(s) =>
      ghost var queues := r.reqs;
      r.Ready(s);
      SameHandles(before, r.servers);
      SameRequests(queues, r.reqs);
    case _ =>
  }

  lemma ProbeAdded(a: map<nat, Server>, b: map<nat, Server>, s: nat, h: nat)
    requires s in a && a.Keys == b.Keys && a[s].probe == None && b[s].probe == Some(h)
    requires forall k :: k in b && k != s ==> b[k].probe == a[k].probe
    ensures Probes(b) == Probes(a) + {h}
  {
    forall h | h in Probes(a)
      ensures h in Probes(b)
    {
      var k :| k in a && a[k].probe == Some(h);
      assert b[k].probe == Some(h);
    }
  }

  /** The probe of one server is over. */
  lemma ProbeOver(a: map<nat, Server>, b: map<nat, Server>, s: nat)
    requires s in a && a.Keys == b.Keys && a[s].probe.Some? && (b[s].probe == None || b[s].probe == a[s].probe)
    requires forall k :: k in b && k != s ==> b[k].probe == a[k].probe
    ensures Probes(b) <= Probes(a) <= Probes(b) + {a[s].probe.value}
  {
    forall h | h in Probes(a) && h != a[s].probe.value
      ensures h in Probes(b)
    {
      var k :| k in a && a[k].probe == Some(h);
      assert b[k].probe == Some(h);
    }
  }

  lemma SameRequests(a: map<nat, Request>, b: map<nat, Request>)
    requires SameQueues(a, b)
    ensures a.Keys == b.Keys
  {
  }

  lemma SameHandles(a: map<nat, Server>, b: map<nat, Server>)
    requires NoneRevived(a, b)
    ensures Probes(a) == Probes(b) && a.Keys == b.Keys
  {
    forall h | h in Probes(a)
      ensures h in Probes(b)
    {
      var k :| k in a && a[k].probe == Some(h);
      assert b[k].probe == Some(h);
    }
  }

  lemma NoServersBusy(r: Resolver)
    requires r.servers == map[]
    ensures r.Busy()
  {
  }

  /** Servers come and go. */
  method ChangeServers(r: Resolver, op: Op, ghost live: set<nat>)
    requires r.Valid() && Enabled(r, op) && Accounted(r, live)
    requires op.AddServer? || op.Clear?
    modifies r
    ensures Kept(r, op, live) && Did(r, op)
  {
    hide Resolver.Valid, Up, StillInflight, NoneRevived;
    if op.AddServer? {
      r.AddServer(op.s);
    } else {
      r.ClearServers();
    }
  }

  /** The queues are rearranged. */
  method ChangeQueues(r: Resolver, op: Op, ghost live: set<nat>)
    requires r.Valid() && Enabled(r, op) && Accounted(r, live)
    requires op.SetMax? || op.Resume?
    modifies r
    ensures Kept(r, op, live) && Did(r, op)
  {
    hide Resolver.Valid, Up, StillInflight, Waits, Pumped, IsSuffix;
    if op.SetMax? {
      r.SetMaxInflight(op.max);
    } else {
      r.Pump();
    }
  }

  method Perform(r: Resolver, op: Op, ghost live: set<nat>)
    requires r.Valid() && Enabled(r, op) && Accounted(r, live)
    modifies r
    ensures Kept(r, op, live) && Did(r, op)
  {
    hide Enabled, Accounted, Resolver.Valid, Live, Resolver.Busy;
    match op
    case Resolve(_) => PerformOnRequest(r, op, live);
    case Cancel(_) => PerformOnRequest(r, op, live);
    case Timeout(_) => PerformOnRequest(r, op, live);
    case Reply(_, _) => PerformOnRequest(r, op, live);
    case SendProbe(_, _) => PerformOnServer(r, op, live);
    case Answer(_, _) => PerformOnServer(r, op, live);
    case Ready(_) => PerformOnServer(r, op, live);
    case AddServer(_) => ChangeServers(r, op, live);
    case Clear => ChangeServers(r, op, live);
    case _ => ChangeQueues(r, op, live);
  }

  /** Was a server added or the maximum set since the queue was last pumped for its own sake? */
  predicate Due(ops: seq<Op>) {
    ops != [] &&
    var last := ops[|ops| - 1];
    if last.AddServer? || last.SetMax? then true else if last.Resume? then false else Due(ops[..|ops| - 1])
  }

  /** The handles that the user submitted, those about which something happened, and those of probes. */
  ghost function Submitted(ops: seq<Op>): set<nat> {
    set op | op in ops && op.Resolve? :: op.h
  }

  ghost function Touched(ops: seq<Op>): set<nat> {
    set op | op in ops && (op.Cancel? || op.Timeout? || op.Reply?) :: op.h
  }

  ghost function Probed(ops: seq<Op>): set<nat> {
    set op | op in ops && op.SendProbe? :: op.h
  }

  /** What the user's requests and the probes have to do with the operations so far. */
  ghost predicate Covers(ops: seq<Op>, live: set<nat>, probes: set<nat>) {
    live <= Submitted(ops) && probes <= Probed(ops) && Submitted(ops) - Touched(ops) - Probed(ops) <= live
  }

  lemma OneMore(ops: seq<Op>, op: Op)
    ensures Submitted(ops + [op]) == Submitted(ops) + if op.Resolve? then {op.h} else {}
    ensures Touched(ops + [op]) == Touched(ops) + if op.Cancel? || op.Timeout? || op.Reply? then {op.h} else {}
    ensures Probed(ops + [op]) == Probed(ops) + if op.SendProbe? then {op.h} else {}
  {
    assert forall o :: o in ops + [op] <==> o in ops || o == op;
  }

  lemma OpDone(ops: seq<Op>, op: Op, live: set<nat>, probes: set<nat>, reqs: set<nat>, after: set<nat>)
    requires Covers(ops, live, probes) && after <= probes + if op.SendProbe? then {op.h} else {}
    ensures Covers(ops + [op], Live(live, op, reqs), after)
  {
    hide Submitted, Touched, Probed;
    OneMore(ops, op);
  }

  lemma OpLeftOut(ops: seq<Op>, op: Op, live: set<nat>, probes: set<nat>)
    requires Covers(ops, live, probes) && (op.Resolve? ==> op.h in live + probes)
    ensures Covers(ops + [op], live, probes)
  {
    hide Submitted, Touched, Probed;
    OneMore(ops, op);
  }

  /** A handle that cannot be used is in use. */
  lemma InUse(r: Resolver, op: Op, live: set<nat>)
    requires Accounted(r, live) && !Enabled(r, op) && op.Resolve?
    ensures op.h in live + Probes(r.servers)
  {
  }

  lemma DueNext(ops: seq<Op>, op: Op)
    ensures Due(ops + [op]) == if op.AddServer? || op.SetMax? then true else if op.Resume? then false else Due(ops)
  {
    assert (ops + [op])[..|ops|] == ops;
  }

  /** Every run keeps the lists, counters and ids in order, whatever the sockets do.  A request of the user that was
      submitted and to which nothing happened is still there, exactly once; every request that is given to a server was
      sent or is marked to be; all requests that are there are the user's or outstanding
      probes; and nothing waits that could be inflight, unless a server was added or the maximum set since the queue
      was last pumped.  Operations that cannot happen in their state are left out. */
  method Run(ops: seq<Op>, socket: nat -> Outcome) returns (r: Resolver)
    ensures fresh(r) && r.Valid() && AllSent(r.reqs)
    ensures r.reqs.Keys <= Submitted(ops) + Probes(r.servers) && Probes(r.servers) <= Probed(ops)
    ensures Submitted(ops) - Touched(ops) - Probed(ops) <= r.reqs.Keys
    ensures Due(ops) || r.Busy()
  {
    hide Enabled, Accounted, Resolver.Valid, Resolver.Busy, Live, Probes, Covers, Due, AllSent;
    r := new Resolver(socket);
    ghost var live: set<nat> := {};
    Begin(r, ops);
    for i := 0 to |ops|
      invariant fresh(r) && r.Valid() && Accounted(r, live) && AllSent(r.reqs)
      invariant Covers(ops[..i], live, Probes(r.servers)) && (Due(ops[..i]) || r.Busy())
    {
      assert ops[..i + 1] == ops[..i] + [ops[i]];
      DueNext(ops[..i], ops[i]);
      if Enabled(r, ops[i]) {
        ghost var probes := Probes(r.servers);
        Perform(r, ops[i], live);
        OpDone(ops[..i], ops[i], live, probes, r.reqs.Keys, Probes(r.servers));
        live := Live(live, ops[i], r.reqs.Keys);
      } else {
        if ops[i].Resolve? { InUse(r, ops[i], live); }
        Always(r, ops[i]);
        OpLeftOut(ops[..i], ops[i], live, Probes(r.servers));
      }
    }
    assert ops[..|ops|] == ops;
    End(r, ops, live);
  }

  lemma Begin(r: Resolver, ops: seq<Op>)
    requires r.reqs == map[] && r.servers == map[] && r.waiting == []
    ensures Accounted(r, {}) && Covers(ops[..0], {}, Probes(r.servers)) && r.Busy()
  {
  }

  lemma Always(r: Resolver, op: Op)
    ensures op.Resume? ==> Enabled(r, op)
  {
  }

  lemma End(r: Resolver, ops: seq<Op>, live: set<nat>)
    requires Accounted(r, live) && Covers(ops, live, Probes(r.servers))
    ensures r.reqs.Keys <= Submitted(ops) + Probes(r.servers) && Probes(r.servers) <= Probed(ops)
    ensures Submitted(ops) - Touched(ops) - Probed(ops) <= r.reqs.Keys
  {
    hide Submitted, Touched, Probed, Probes;
  }
}
