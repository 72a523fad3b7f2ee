/**
 * The queues of the DNS resolver.  A request and a name server are records in a map from their
 * identity; lists hold identities.  What a socket does with the n-th packet is a function of n.
 */
module Resolvers {
  import opened Options
  import opened Counting

  datatype Request = Request(ns: Option<nat>, transId: nat, txCount: nat, reissueCount: nat, transmitMe: bool)

  datatype Server = Server(up: bool, inflight: int, probe: Option<nat>, choked: bool, failedTimes: nat, timedOut: nat)

  datatype ProbeAnswer = Cancelled | Answered | Failed

  /** What a socket does with a packet: it goes out, it cannot for now, or the server turns out to be bad. */
  datatype Outcome = Sent | Blocked | Broken

  datatype Reply = Good | Refused | ServerFailed | OtherError

  const NO_ID: nat := 0xffff

  /** The bucket for a transaction id. */
  function Bucket(id: nat, n: nat): (i: nat)
    requires n > 0
    ensures i < n
  {
    id % n
  }

  /** Each request with a server is in the bucket of its transaction id, the others are waiting. */
  ghost predicate Lists(reqs: map<nat, Request>, heads: seq<seq<nat>>, waiting: seq<nat>) {
    && |heads| > 0
    && (forall i, h :: 0 <= i < |heads| && h in heads[i] ==>
                         h in reqs && reqs[h].ns.Some? && Bucket(reqs[h].transId, |heads|) == i)
    && (forall h :: h in waiting ==> h in reqs && reqs[h].ns == None)
    && (forall h :: h in reqs ==> if reqs[h].ns.Some? then h in heads[Bucket(reqs[h].transId, |heads|)]
       else h in waiting)
    && (forall i :: 0 <= i < |heads| ==> NoDup(heads[i]))
    && NoDup(waiting)
  }

  /** Inflight requests have different transaction ids, none of them the reserved one. */
  ghost predicate Ids(reqs: map<nat, Request>) {
    && (forall h :: h in reqs && reqs[h].ns.Some? ==> reqs[h].transId < NO_ID)
    && (forall h, k :: h in reqs && k in reqs && h != k && reqs[h].ns.Some? && reqs[k].ns.Some? ==>
                         reqs[h].transId != reqs[k].transId)
  }

  ghost function On(reqs: map<nat, Request>, s: nat): set<nat> {
    set h | h in reqs && reqs[h].ns == Some(s)
  }

  /** Every server counts the requests it has been given. */
  ghost predicate Counts(reqs: map<nat, Request>, servers: map<nat, Server>) {
    && (forall h :: h in reqs && reqs[h].ns.Some? ==> reqs[h].ns.value in servers)
    && (forall s :: s in servers ==> servers[s].inflight == |On(reqs, s)|)
  }

  ghost function Up(servers: map<nat, Server>): set<nat> {
    set s | s in servers && servers[s].up
  }

  /** The ring has every server once. */
  ghost predicate Ring(servers: map<nat, Server>, ring: seq<nat>) {
    NoDup(ring) && forall s :: s in ring <==> s in servers
  }

  // ---------- How the lists and counters change together ----------

  lemma AddInflight(reqs: map<nat, Request>, heads: seq<seq<nat>>, waiting: seq<nat>, h: nat, r: Request)
    requires Lists(reqs, heads, waiting) && h !in reqs && r.ns.Some?
    ensures |heads| > 0
    ensures var i := Bucket(r.transId, |heads|); var after := heads[i := heads[i] + [h]];
            Lists(reqs[h := r], after, waiting) && Total(after) == Total(heads) + 1
  {
    hide Bucket, Total;
    var i := Bucket(r.transId, |heads|);
    TotalUpdate(heads, i, heads[i] + [h]);
  }

  lemma RemoveInflight(reqs: map<nat, Request>, heads: seq<seq<nat>>, waiting: seq<nat>, h: nat)
    requires Lists(reqs, heads, waiting) && h in reqs && reqs[h].ns.Some?
    ensures var i := Bucket(reqs[h].transId, |heads|); var after := heads[i := Without(heads[i], h)];
            Lists(reqs - {h}, after, waiting) && Total(after) == Total(heads) - 1
  {
    hide Bucket, Total, Without;
    var i := Bucket(reqs[h].transId, |heads|);
    WithoutNoDup(heads[i], h);
    TotalUpdate(heads, i, Without(heads[i], h));
  }

  lemma AddWaiting(reqs: map<nat, Request>, heads: seq<seq<nat>>, waiting: seq<nat>, h: nat, r: Request)
    requires Lists(reqs, heads, waiting) && h !in reqs && r.ns == None
    ensures Lists(reqs[h := r], heads, waiting + [h]) && Lists(reqs[h := r], heads, [h] + waiting)
  {
  }

  lemma RemoveWaiting(reqs: map<nat, Request>, heads: seq<seq<nat>>, waiting: seq<nat>, h: nat)
    requires Lists(reqs, heads, waiting) && h in reqs && reqs[h].ns == None
    ensures Lists(reqs - {h}, heads, Without(waiting, h)) && |Without(waiting, h)| == |waiting| - 1
  {
    hide Bucket, Total, Without;
    WithoutNoDup(waiting, h);
  }

  lemma Retouch(reqs: map<nat, Request>, heads: seq<seq<nat>>, waiting: seq<nat>, h: nat, r: Request)
    requires Lists(reqs, heads, waiting) && h in reqs && r.ns.Some? == reqs[h].ns.Some? && r.transId == reqs[h].transId
    ensures Lists(reqs[h := r], heads, waiting)
  {
  }

  /** The counter of a server changed by d. */
  function Bump(servers: map<nat, Server>, s: Option<nat>, d: int): map<nat, Server> {
    if s.Some? && s.value in servers
    then servers[s.value := servers[s.value].(inflight := servers[s.value].inflight + d)]
    else servers
  }

  function ServerOf(reqs: map<nat, Request>, h: nat): Option<nat> {
    if h in reqs then reqs[h].ns else None
  }

  function One(b: bool): int {
    if b then 1 else 0
  }

  lemma OnPut(reqs: map<nat, Request>, h: nat, r: Request, s: nat)
    ensures |On(reqs[h := r], s)| == |On(reqs, s)| - One(ServerOf(reqs, h) == Some(s)) + One(r.ns == Some(s))
  {
    var others := On(reqs, s) - {h};
    assert On(reqs, s) == if ServerOf(reqs, h) == Some(s) then others + {h} else others;
    assert On(reqs[h := r], s) == if r.ns == Some(s) then others + {h} else others;
  }

  lemma OnTake(reqs: map<nat, Request>, h: nat, s: nat)
    ensures |On(reqs - {h}, s)| == |On(reqs, s)| - One(ServerOf(reqs, h) == Some(s))
  {
    assert On(reqs - {h}, s) == On(reqs, s) - {h};
  }

  /** Put r where h was: one server counts one less, another one more. */
  lemma CountsPut(reqs: map<nat, Request>, servers: map<nat, Server>, h: nat, r: Request)
    requires Counts(reqs, servers) && (r.ns.Some? ==> r.ns.value in servers)
    ensures Counts(reqs[h := r], Bump(Bump(servers, ServerOf(reqs, h), 0 - 1), r.ns, 1))
  {
    hide On;
    forall s | s in servers
      ensures |On(reqs[h := r], s)| == servers[s].inflight - One(ServerOf(reqs, h) == Some(s)) + One(r.ns == Some(s))
    {
      OnPut(reqs, h, r, s);
    }
  }

  lemma CountsTake(reqs: map<nat, Request>, servers: map<nat, Server>, h: nat)
    requires Counts(reqs, servers)
    ensures Counts(reqs - {h}, Bump(servers, ServerOf(reqs, h), 0 - 1))
  {
    hide On;
    forall s | s in servers
      ensures |On(reqs - {h}, s)| == servers[s].inflight - One(ServerOf(reqs, h) == Some(s))
    {
      OnTake(reqs, h, s);
    }
  }

  /** No inflight request uses this transaction id. */
  predicate IsFree(reqs: map<nat, Request>, id: nat) {
    forall h :: h in reqs && reqs[h].ns.Some? ==> reqs[h].transId != id
  }

  /** With less than n requests inflight, one of n ids is free. */
  lemma FreeId(reqs: map<nat, Request>, heads: seq<seq<nat>>, waiting: seq<nat>, n: nat) returns (id: nat)
    requires Lists(reqs, heads, waiting) && Total(heads) < n
    ensures id < n && IsFree(reqs, id)
  {
    hide Lists, Numbers, Entries, Total;
    var used := set h | h in reqs && reqs[h].ns.Some?;
    AllInEntries(reqs, heads, waiting, used);
    Subset(used, Entries(heads));
    EntriesAtMost(heads);
    var ids := map h | h in used :: reqs[h].transId;
    ImageAtMost(used, ids);
    FreeBelow(Image(used, ids), n);
    id :| id in Numbers(n) && id !in Image(used, ids);
    forall h | h in reqs && reqs[h].ns.Some?
      ensures reqs[h].transId != id
    {
      assert h in used && ids[h] == reqs[h].transId;
    }
  }

  /** The search for an id can end exactly as long as not all of them are taken; no more requests than there are ids
      are ever inflight. */
  lemma IdsRunOut(reqs: map<nat, Request>, heads: seq<seq<nat>>, waiting: seq<nat>)
    requires Lists(reqs, heads, waiting) && Ids(reqs)
    ensures Total(heads) <= NO_ID
    ensures (exists id :: 0 <= id < NO_ID && IsFree(reqs, id)) <==> Total(heads) < NO_ID
  {
    hide Lists, Ids, Numbers, Entries, Total, IsFree;
    var used := set h | h in reqs && reqs[h].ns.Some?;
    var ids := map h | h in used :: reqs[h].transId;
    InflightEntries(reqs, heads, waiting, used);
    TakenIds(reqs, used, ids);
    NumbersCount(NO_ID);
    Subset(Image(used, ids), Numbers(NO_ID));
    if Total(heads) < NO_ID {
      var id := FreeId(reqs, heads, waiting, NO_ID);
    } else if id :| 0 <= id < NO_ID && IsFree(reqs, id) {
      assert id !in Image(used, ids) by { NotTaken(reqs, used, ids, id); }
      Subset(Image(used, ids) + {id}, Numbers(NO_ID));
    }
  }

  lemma NotTaken(reqs: map<nat, Request>, used: set<nat>, ids: map<nat, nat>, id: nat)
    requires used == (set h | h in reqs && reqs[h].ns.Some?) && ids == map h | h in used :: reqs[h].transId
    requires IsFree(reqs, id)
    ensures id !in Image(used, ids)
  {
  }

  lemma TakenIds(reqs: map<nat, Request>, used: set<nat>, ids: map<nat, nat>)
    requires used == (set h | h in reqs && reqs[h].ns.Some?) && ids == map h | h in used :: reqs[h].transId
    requires Ids(reqs)
    ensures |Image(used, ids)| == |used| && Image(used, ids) <= Numbers(NO_ID)
  {
    hide Numbers;
    ImageExactly(used, ids);
  }

  lemma InflightEntries(reqs: map<nat, Request>, heads: seq<seq<nat>>, waiting: seq<nat>, used: set<nat>)
    requires Lists(reqs, heads, waiting) && used == set h | h in reqs && reqs[h].ns.Some?
    ensures |used| == Total(heads)
  {
    hide Entries, Total, Bucket;
    AllInEntries(reqs, heads, waiting, used);
    forall i, j, h | 0 <= i < j < |heads| && h in heads[i]
      ensures h !in heads[j]
    {
      assert Bucket(reqs[h].transId, |heads|) == i;
    }
    EntriesExactly(heads);
    forall h | h in Entries(heads)
      ensures h in used
    {
      var i := InSome(heads, h);
    }
    assert used == Entries(heads);
  }

  lemma AllInEntries(reqs: map<nat, Request>, heads: seq<seq<nat>>, waiting: seq<nat>, used: set<nat>)
    requires Lists(reqs, heads, waiting) && used == set h | h in reqs && reqs[h].ns.Some?
    ensures used <= Entries(heads)
  {
    forall h | h in used
      ensures h in Entries(heads)
    {
      InEntries(heads, Bucket(reqs[h].transId, |heads|), h);
    }
  }

  lemma IdsAdd(reqs: map<nat, Request>, h: nat, r: Request)
    requires Ids(reqs) && r.transId < NO_ID && IsFree(reqs, r.transId) && ServerOf(reqs, h) == None
    ensures Ids(reqs[h := r])
  {
  }

  lemma IdsKeep(reqs: map<nat, Request>, h: nat, r: Request)
    requires Ids(reqs) && (r.ns.Some? ==> h in reqs && reqs[h].ns.Some? && r.transId == reqs[h].transId)
    ensures Ids(reqs[h := r])
  {
  }

  lemma IdsTake(reqs: map<nat, Request>, h: nat)
    requires Ids(reqs)
    ensures Ids(reqs - {h})
  {
  }

  lemma Bumped(servers: map<nat, Server>, s: Option<nat>, d: int)
    ensures Up(Bump(servers, s, d)) == Up(servers) && Bump(servers, s, d).Keys == servers.Keys
    ensures s == None ==> Bump(servers, s, d) == servers
  {
  }

  /** Changes of a server that the counters do not see. */
  lemma ServerKeep(reqs: map<nat, Request>, servers: map<nat, Server>, s: nat, v: Server)
    requires Counts(reqs, servers) && s in servers && v.inflight == servers[s].inflight
    ensures Counts(reqs, servers[s := v]) && servers[s := v].Keys == servers.Keys
    ensures Up(servers[s := v]) == if v.up then Up(servers) + {s} else Up(servers) - {s}
  {
  }

  /** The same requests, in the same lists. */
  ghost predicate SameQueues(a: map<nat, Request>, b: map<nat, Request>) {
    a.Keys == b.Keys && forall h :: h in a ==> a[h].ns.Some? == b[h].ns.Some? && a[h].transId == b[h].transId
  }

  /** The same requests, except that some may have been given to another server. */
  ghost predicate OnlyMoved(a: map<nat, Request>, b: map<nat, Request>) {
    a.Keys == b.Keys && forall h :: h in a ==> a[h].ns.Some? == b[h].ns.Some? && b[h] == a[h].(ns := b[h].ns)
  }

  lemma MovedQueues(a: map<nat, Request>, b: map<nat, Request>)
    requires OnlyMoved(a, b)
    ensures SameQueues(a, b)
  {
  }

  /** The same requests, each sent once more than before, and no longer marked, or left as it was marked. */
  ghost predicate SentOnce(a: map<nat, Request>, b: map<nat, Request>) {
    a.Keys == b.Keys && forall h :: h in a ==>
      && (!a[h].transmitMe ==> !b[h].transmitMe)
      && b[h].txCount == a[h].txCount + One(a[h].transmitMe && !b[h].transmitMe)
  }

  /** Every request that has a server was sent, or is marked to be sent. */
  ghost predicate AllSent(reqs: map<nat, Request>) {
    forall h :: h in reqs && reqs[h].ns.Some? ==> reqs[h].txCount > 0 || reqs[h].transmitMe
  }

  ghost predicate AllSentBut(reqs: map<nat, Request>, h: nat) {
    forall k :: k in reqs && k != h && reqs[k].ns.Some? ==> reqs[k].txCount > 0 || reqs[k].transmitMe
  }

  /** The request that was not sent yet is given to a good server, if there is one. */
  ghost predicate OnGood(reqs: map<nat, Request>, servers: map<nat, Server>, h: nat) {
    h in reqs && reqs[h].ns.Some? && (Up(servers) != {} ==> reqs[h].ns.value in Up(servers))
  }

  ghost predicate ChokedAt(reqs: map<nat, Request>, servers: map<nat, Server>, h: nat)
    requires h in reqs && reqs[h].ns.Some?
  {
    reqs[h].ns.value in servers && servers[reqs[h].ns.value].choked
  }

  /** What a transmission of the request h did, by whether its server was choked and by what the socket did. */
  ghost predicate Tried(a: map<nat, Request>, us: map<nat, Server>, b: map<nat, Request>, ss: map<nat, Server>, h: nat,
                        choked: bool, r: Outcome)
    requires h in a && h in b && a[h].ns.Some?
  {
    var s := a[h].ns.value;
    && (b[h].transmitMe <==> choked || r == Blocked)
    && (b[h].transmitMe ==> b == a[h := b[h]] && b[h].ns == Some(s) && s in ss && ss[s].choked)
    && (choked ==> ss == us)
    && (!choked && r == Broken ==> Up(ss) == Up(us) - {s})
    && (!choked && r != Broken ==> Up(ss) == Up(us))
    && (Up(ss) == Up(us) ==> b == a[h := b[h]] && b[h].ns == Some(s))
  }

  lemma Marked(a: map<nat, Request>, us: map<nat, Server>, b: map<nat, Request>, h: nat)
    requires h in a && a[h].ns.Some? && b == a[h := a[h].(transmitMe := true)] && a[h].ns.value in us
    requires us[a[h].ns.value].choked
    ensures forall r :: Tried(a, us, b, us, h, true, r)
  {
  }

  lemma BlockedOnce(a: map<nat, Request>, us: map<nat, Server>, b: map<nat, Request>, ss: map<nat, Server>, h: nat)
    requires h in a && a[h].ns.Some? && b == a[h := a[h].(transmitMe := true)] && a[h].ns.value in us
    requires ss == us[a[h].ns.value := us[a[h].ns.value].(choked := true)]
    ensures Tried(a, us, b, ss, h, false, Blocked) && (OnGood(a, us, h) ==> OnGood(b, ss, h))
    ensures Up(ss) == Up(us)
  {
    assert Up(ss) == Up(us);
  }

  lemma SentNow(a: map<nat, Request>, us: map<nat, Server>, b: map<nat, Request>, h: nat)
    requires h in a && a[h].ns.Some? && b == a[h := a[h].(txCount := a[h].txCount + 1, transmitMe := false)]
    ensures Tried(a, us, b, us, h, false, Sent) && (OnGood(a, us, h) ==> OnGood(b, us, h))
  {
  }

  /** The request h was sent once more, or is marked; the others may have moved. */
  ghost predicate OnlyTried(a: map<nat, Request>, b: map<nat, Request>, h: nat) {
    && a.Keys == b.Keys && h in a && a[h].ns.Some? && b[h].ns.Some?
    && b[h] == a[h].(ns := b[h].ns, transmitMe := b[h].transmitMe, txCount := b[h].txCount)
    && b[h].txCount == a[h].txCount + One(!b[h].transmitMe)
    && forall k :: k in a && k != h ==> b[k] == a[k].(ns := b[k].ns) && a[k].ns.Some? == b[k].ns.Some?
  }

  lemma OneTried(a: map<nat, Request>, b: map<nat, Request>, h: nat, r: Request)
    requires h in a && a[h].ns.Some? && b == a[h := r] && r == a[h].(transmitMe := r.transmitMe, txCount := r.txCount)
    requires r.txCount == a[h].txCount + One(!r.transmitMe)
    ensures OnlyTried(a, b, h)
  {
  }

  lemma Went(a: map<nat, Request>, us: map<nat, Server>, b: map<nat, Request>, ss: map<nat, Server>, h: nat,
             choked: bool, r: Outcome)
    requires h in b && OnlyTried(a, b, h) && Tried(a, us, b, ss, h, choked, r)
    ensures GoesOut(a[h], b[h], choked, r)
  {
    hide Up;
  }

  lemma NewSent(a: map<nat, Request>, b: map<nat, Request>, h: nat, r: Request)
    requires h !in a && b == a[h := r]
    ensures AllSent(a) ==> AllSentBut(b, h)
  {
  }

  lemma NewInflight(a: map<nat, Request>, b: map<nat, Request>, c: map<nat, Request>, h: nat, r: Request)
    requires h !in a && b == a[h := r] && StillInflight(b, c) && b.Keys == c.Keys && r.ns.Some?
    ensures StillInflight(a, c) && h in c && c[h].ns.Some?
  {
  }

  /** The request h is given to the server s, the others stay where they are. */
  ghost predicate PlacedAt(a: map<nat, Request>, b: map<nat, Request>, h: nat, s: nat) {
    a.Keys == b.Keys && h in b && b[h].ns == Some(s) && forall k :: k in b && k != h ==> b[k].ns == a[k].ns
  }

  lemma NowPlaced(a: map<nat, Request>, b: map<nat, Request>, us: map<nat, Server>, was: seq<nat>,
                  c: map<nat, Request>, ss: map<nat, Server>, ring: seq<nat>, socket: nat -> Outcome, t: nat, n: nat,
                  h: nat, s: nat)
    requires PlacedAt(a, b, h, s) && b.Keys == c.Keys && Calm(b, us, was, c, ss, ring, socket, t, n)
    ensures Up(ss) == Up(us) ==> PlacedAt(a, c, h, s) && ring == was
  {
    hide Up;
  }

  /** Requests that wait no longer are at good servers, if there are any, and the others where they were. */
  ghost predicate WellPlaced(a: map<nat, Request>, b: map<nat, Request>, servers: map<nat, Server>) {
    a.Keys == b.Keys &&
    forall k :: k in a && b[k].ns != a[k].ns ==>
      a[k].ns == None && b[k].ns.Some? && (Up(servers) != {} ==> b[k].ns.value in Up(servers))
  }

  lemma WellPlacedMore(a: map<nat, Request>, b: map<nat, Request>, us: map<nat, Server>, c: map<nat, Request>,
                       ss: map<nat, Server>, h: nat, s: nat)
    requires WellPlaced(a, b, us) && PlacedAt(b, c, h, s) && Up(us) == Up(ss) && b[h].ns == None
    requires Up(us) != {} ==> s in Up(us)
    ensures WellPlaced(a, c, ss)
  {
    hide Up;
  }

  /** After some requests were promoted, unless a server failed: they are well placed, and if there were any then
      everything marked waits for its server. */
  ghost predicate Pumped(a: map<nat, Request>, b: map<nat, Request>, servers: map<nat, Server>, any: bool) {
    WellPlaced(a, b, servers) && (any ==> NoneLeft(b, servers))
  }

  lemma PumpedNone(a: map<nat, Request>, servers: map<nat, Server>)
    ensures Pumped(a, a, servers, false)
  {
  }

  lemma PumpedMore(a: map<nat, Request>, b: map<nat, Request>, us: map<nat, Server>, c: map<nat, Request>,
                   ss: map<nat, Server>, h: nat, s: nat, any: bool)
    requires Up(ss) <= Up(us) && h in b && b[h].ns == None && (Up(us) != {} ==> s in Up(us))
    requires Up(us) == Up(ss) ==> PlacedAt(b, c, h, s) && NoneLeft(c, ss)
    ensures Pumped(a, b, us, any) && Up(us) == Up(ss) ==> Pumped(a, c, ss, true)
  {
    hide Up, NoneLeft;
    if Pumped(a, b, us, any) && Up(us) == Up(ss) { WellPlacedMore(a, b, us, c, ss, h, s); }
  }

  /** A new request that was sent once, or is marked. */
  ghost predicate Fresh(r: Request) {
    r.txCount == One(!r.transmitMe) && r.reissueCount == 0
  }

  lemma Whole(reqs: map<nat, Request>, waiting: seq<nat>)
    ensures StillInflight(reqs, reqs) && IsSuffix(waiting, waiting)
  {
  }

  lemma SuffixShorter(a: seq<nat>, b: seq<nat>)
    requires a != [] && IsSuffix(a, b)
    ensures IsSuffix(a[1..], b)
  {
  }

  lemma SameChoke(a: map<nat, Server>, b: map<nat, Server>, s: nat)
    requires SameServers(a, b) && s in b
    ensures s in a && a[s].choked == b[s].choked
  {
  }

  lemma WentAndMoved(a: Request, b: Request, c: Request, choked: bool, r: Outcome)
    requires GoesOut(a, b, choked, r) && c == b.(ns := c.ns)
    ensures GoesOut(a, c, choked, r)
  {
  }

  lemma WentAfter(a: Request, b: Request, c: Request, choked: bool, r: Outcome)
    requires b == a.(ns := b.ns) && GoesOut(b, c, choked, r)
    ensures GoesOut(a, c, choked, r)
  {
  }

  lemma FailTried(a: map<nat, Request>, moved: map<nat, Request>, b: map<nat, Request>, h: nat)
    requires h in a && a[h].ns.Some? && OnlyMoved(a[h := a[h].(transmitMe := true)], moved)
    requires b == moved[h := moved[h].(txCount := moved[h].txCount + 1, transmitMe := false)]
    ensures OnlyTried(a, b, h)
  {
  }

  lemma TriedOnce(a: map<nat, Request>, b: map<nat, Request>, h: nat)
    requires OnlyTried(a, b, h)
    ensures SameQueues(a, b) && (AllSentBut(a, h) ==> AllSent(b))
  {
  }

  lemma StillGood(a: map<nat, Request>, us: map<nat, Server>, b: map<nat, Request>, bs: map<nat, Server>, h: nat)
    requires h in a && h in b && a[h].ns.Some? && b[h].ns.Some? && Up(bs) <= Up(us)
    requires b[h].ns == a[h].ns || b[h].ns.value in Up(bs)
    requires a[h].txCount == 0 && a[h].ns.value in Up(us) && a[h].ns.value !in Up(bs) && Up(bs) != {} ==>
               b[h].ns.value in Up(bs)
    ensures a[h].txCount == 0 && OnGood(a, us, h) ==> OnGood(b, bs, h)
  {
    hide Up;
  }

  /** A packet from the t-th to the n-th could not be sent for now. */
  ghost predicate BlockedIn(socket: nat -> Outcome, t: nat, n: nat) {
    exists i :: t <= i < n && socket(i) == Blocked
  }

  /** The requests that are marked no longer. */
  ghost function NowSent(a: map<nat, Request>, b: map<nat, Request>): set<nat> {
    set h | h in a && h in b && a[h].transmitMe && !b[h].transmitMe
  }

  /** Each request that is marked no longer took a packet.  Unless a server failed, no request has moved and the next
      server is the same; and a server is choked only if it was before, or since the t-th packet one could not be
      sent. */
  ghost predicate Calm(a: map<nat, Request>, us: map<nat, Server>, was: seq<nat>, b: map<nat, Request>,
                       ss: map<nat, Server>, ring: seq<nat>, socket: nat -> Outcome, t: nat, n: nat)
  {
    && t + |NowSent(a, b)| <= n
    && (Up(ss) == Up(us) ==> ring == was && forall k :: k in a && k in b ==> b[k].ns == a[k].ns)
    && (forall s :: s in ss && ss[s].choked ==> (s in us && us[s].choked) || BlockedIn(socket, t, n))
  }

  lemma JustBlocked(socket: nat -> Outcome, t: nat)
    requires socket(t) == Blocked
    ensures BlockedIn(socket, t, t + 1)
  {
  }

  lemma CalmAt(a: map<nat, Request>, us: map<nat, Server>, ring: seq<nat>, socket: nat -> Outcome, t: nat)
    ensures Calm(a, us, ring, a, us, ring, socket, t, t)
  {
    assert NowSent(a, a) == {};
  }

  lemma Unchanged(a: map<nat, Server>)
    ensures NoneRevived(a, a) && SameTimeouts(a, a) && StayChoked(a, a)
  {
  }

  /** Nothing happened but that a server is choked because a packet could not be sent. */
  lemma CalmHere(a: map<nat, Request>, us: map<nat, Server>, b: map<nat, Request>, ss: map<nat, Server>,
                 ring: seq<nat>, socket: nat -> Outcome, t: nat, n: nat, h: nat)
    requires h in a && h in b && b == a[h := b[h]] && b[h].ns == a[h].ns
    requires if b[h].transmitMe then t <= n else t < n
    requires us == ss || BlockedIn(socket, t, n)
    ensures Calm(a, us, ring, b, ss, ring, socket, t, n)
  {
    Subset(NowSent(a, b), if b[h].transmitMe then {} else {h});
  }

  /** The server s was found to be bad; if it was down before nothing else happened. */
  lemma CalmFailed(a: map<nat, Request>, us: map<nat, Server>, was: seq<nat>, b: map<nat, Request>,
                   ss: map<nat, Server>, ring: seq<nat>, socket: nat -> Outcome, t: nat, s: nat, h: nat,
                   moved: map<nat, Request>)
    requires SameChoked(us, ss) && Up(ss) == Up(us) - {s} && s in us && h in a && h in moved && h in b
    requires !us[s].up ==> moved == a[h := a[h].(transmitMe := true)] && ring == was
    requires b == moved[h := b[h]] && b[h].ns == moved[h].ns && OnlyTried(a, b, h)
    ensures Calm(a, us, was, b, ss, ring, socket, t, t + 1)
  {
    hide Up;
    IsUp(us, s);
    Subset(NowSent(a, b), {h});
  }

  lemma ChokedStay(a: map<nat, Server>, b: map<nat, Server>)
    requires SameChoked(a, b)
    ensures StayChoked(a, b)
  {
  }

  lemma CalmTwice(a: map<nat, Request>, us: map<nat, Server>, ring0: seq<nat>, b: map<nat, Request>,
                  ss: map<nat, Server>, ring1: seq<nat>, c: map<nat, Request>, ts: map<nat, Server>, ring2: seq<nat>,
                  socket: nat -> Outcome, t: nat, n: nat, m: nat)
    requires Calm(a, us, ring0, b, ss, ring1, socket, t, n) && Calm(b, ss, ring1, c, ts, ring2, socket, n, m)
    requires Up(ts) <= Up(ss) <= Up(us) && a.Keys == b.Keys
    ensures Calm(a, us, ring0, c, ts, ring2, socket, t, m)
  {
    hide Up;
    SentTwice(a, b, c);
  }

  lemma SentTwice(a: map<nat, Request>, b: map<nat, Request>, c: map<nat, Request>)
    requires a.Keys == b.Keys
    ensures |NowSent(a, c)| <= |NowSent(a, b)| + |NowSent(b, c)|
  {
    var both := NowSent(a, b) + NowSent(b, c);
    Subset(NowSent(a, c), both);
    assert both == NowSent(a, b) + (NowSent(b, c) - NowSent(a, b));
    Subset(NowSent(b, c) - NowSent(a, b), NowSent(b, c));
  }

  lemma {:induction false} Subset(a: set<nat>, b: set<nat>)
    requires a <= b
    ensures |a| <= |b|
  {
    assert b == a + (b - a);
  }

  /** What a transmission makes of a request, by whether its server was choked and by what the socket did. */
  ghost predicate GoesOut(r: Request, sent: Request, choked: bool, out: Outcome) {
    sent == r.(ns := sent.ns, transmitMe := choked || out == Blocked,
               txCount := if choked || out == Blocked then r.txCount else r.txCount + 1)
  }

  /** Everything marked that has a server waits for that one. */
  ghost predicate NoneLeft(reqs: map<nat, Request>, servers: map<nat, Server>) {
    forall h :: h in reqs && reqs[h].ns.Some? ==> Handled(reqs, servers, h)
  }

  /** No socket was found to be ready again. */
  ghost predicate StayChoked(a: map<nat, Server>, b: map<nat, Server>) {
    a.Keys == b.Keys && forall s :: s in a && a[s].choked ==> b[s].choked
  }

  /** No socket was given anything, nor found to be ready. */
  ghost predicate SameChoked(a: map<nat, Server>, b: map<nat, Server>) {
    a.Keys == b.Keys && forall s :: s in a ==> b[s].choked == a[s].choked
  }

  class Resolver {
    var reqs: map<nat, Request>
    var servers: map<nat, Server>
    var heads: seq<seq<nat>>
    var waiting: seq<nat>
    var ring: seq<nat>            // the circular list of servers, from server_head on
    var good: int
    var inflight: int
    var waitingCount: int
    var maxInflight: nat
    var maxReissues: nat
    var maxRetransmits: nat
    var maxTimeouts: nat
    const socket: nat -> Outcome
    var tries: nat                // how many packets the sockets were given

    ghost predicate Valid()
      reads this
    {
      && Lists(reqs, heads, waiting)
      && Ids(reqs)
      && Counts(reqs, servers)
      && Ring(servers, ring)
      && good == |Up(servers)|
      && inflight == Total(heads)
      && waitingCount == |waiting|
      && 1 <= maxInflight <= NO_ID
    }

    /** Nothing waits that could be inflight. */
    predicate Busy()
      reads this
    {
      inflight >= maxInflight || waiting == [] || servers == map[]
    }

    constructor (socket: nat -> Outcome)
      ensures Valid() && reqs == map[] && servers == map[] && waiting == [] && AllSent(reqs)
      ensures maxInflight == 64 && this.socket == socket && tries == 0
      ensures maxReissues == 1 && maxRetransmits == 3 && maxTimeouts == 3
    {
      this.socket := socket;
      tries := 0;
      reqs, servers, waiting, ring := map[], map[], [], [];
      heads := seq(13, _ => []);
      good, inflight, waitingCount, maxInflight := 0, 0, 0, 64;
      maxReissues, maxRetransmits, maxTimeouts := 1, 3, 3;
      new;
      TotalEmpty(heads);
      assert Up(servers) == {};
    }

    /** nameserver_pick: the next good server of the ring, or any if there is none. */
    method Pick() returns (s: Option<nat>)
      requires Valid()
      modifies this`ring
      ensures Valid() && (s == None <==> servers == map[])
      ensures s.Some? ==> s.value in servers && (good > 0 ==> servers[s.value].up)
      ensures s.Some? ==> Picked(servers, old(ring), ring, s.value)
      ensures s == None ==> ring == old(ring)
    {
      hide Lists, Ids, Counts, Total, Ring, Up;
      GoodUp();
      if ring == [] {
        NoServers(servers, ring);
        return None;
      }
      InRing(servers, ring);
      if good == 0 {
        Rotated(servers, ring, 1);
        ring := ring[1..] + [ring[0]];
        assert ring == From(old(ring), 1) && ring[0] in ring;
        InRing(servers, ring);
        return Some(ring[0]);
      }
      ghost var k;
      s, k := PickGood();
    }

    /** Go around the ring until a good server is found; it is never gone around in vain. */
    method PickGood() returns (s: Option<nat>, ghost k: nat)
      requires Ring(servers, ring) && ring != [] && |Up(servers)| > 0
      modifies this`ring
      ensures Ring(servers, ring) && FirstUp(servers, old(ring), k)
      ensures s == Some(old(ring)[k]) && s.value in servers && ring == From(old(ring), k + 1)
    {
      hide Ring, Up, From;
      var startedAt := ring[0];
      ghost var was := ring;
      k := 0;
      FromStart(was);
      while true
        invariant k < |was| && ring == From(was, k) && Ring(servers, ring) && NoneUpTo(servers, was, k)
        decreases |was| - k
      {
        InRing(servers, was);
        Rotated(servers, was, k + 1);
        NextFrom(was, k);
        if servers[ring[0]].up {
          s := Some(ring[0]);
          ring := ring[1..] + [ring[0]];
          return;
        }
        ring := ring[1..] + [ring[0]];
        k := k + 1;
        if ring[0] == startedAt {
          AllAround(servers, was, k);
          assert false;
        }
      }
    }

    /** request_swap_ns */
    method SwapNs(h: nat, s: Option<nat>)
      requires Valid() && h in reqs && reqs[h].ns.Some? && (s.Some? ==> s.value in servers)
      modifies this`reqs, this`servers
      ensures Valid() && OnlyMoved(old(reqs), reqs) && SameServers(old(servers), servers)
      ensures reqs == old(reqs)[h := old(reqs)[h].(ns := if s.Some? then s else old(reqs)[h].ns)]
    {
      hide Lists, Ids, Counts, Total, Ring, Up, On, Bump, SameServers;
      SameTwice(servers, servers, servers, 0);
      if s.Some? && reqs[h].ns != s {
        var r := reqs[h];
        SameBumped(servers, r.ns, 0 - 1);
        SameBumped(Bump(servers, r.ns, 0 - 1), s, 1);
        SameTwice(servers, Bump(servers, r.ns, 0 - 1), Bump(Bump(servers, r.ns, 0 - 1), s, 1), 0);
        Counted(reqs, servers, h);
        assert servers[r.ns.value].inflight > 0;
        Retouch(reqs, heads, waiting, h, r.(ns := s));
        IdsKeep(reqs, h, r.(ns := s));
        CountsPut(reqs, servers, h, r.(ns := s));
        Bumped(servers, r.ns, 0 - 1);
        Bumped(Bump(servers, r.ns, 0 - 1), s, 1);
        BumpsServers(servers, r.ns, s);
        servers := servers[r.ns.value := servers[r.ns.value].(inflight := servers[r.ns.value].inflight - 1)];
        servers := servers[s.value := servers[s.value].(inflight := servers[s.value].inflight + 1)];
        reqs := reqs[h := r.(ns := s)];
        RingKeys(old(servers), servers, ring);
      } else {
        assert reqs == reqs[h := reqs[h]];
      }
    }

    /** Change fields of a request that no queue and no counter depends on. */
    method Touch(h: nat, r: Request)
      requires Valid() && h in reqs && r.ns == reqs[h].ns && r.transId == reqs[h].transId
      modifies this`reqs
      ensures Valid() && SameQueues(old(reqs), reqs) && reqs == old(reqs)[h := r]
    {
      hide Lists, Ids, Total, Ring, Up, On, Counts;
      Retouch(reqs, heads, waiting, h, r);
      IdsKeep(reqs, h, r);
      CountsSame(reqs, servers, h, r);
      reqs := reqs[h := r];
    }

    /** Change fields of a server that no counter depends on. */
    method TouchServer(s: nat, v: Server)
      requires Valid() && s in servers && v.inflight == servers[s].inflight && v.up == servers[s].up
      modifies this`servers
      ensures Valid() && servers == old(servers)[s := v] && Up(servers) == Up(old(servers))
      ensures v.probe == old(servers)[s].probe ==> SameProbes(old(servers), servers)
      ensures v.timedOut == old(servers)[s].timedOut ==> SameTimeouts(old(servers), servers)
      ensures (old(servers)[s].choked ==> v.choked) ==> StayChoked(old(servers), servers)
      ensures old(servers)[s].choked == v.choked ==> SameChoked(old(servers), servers)
    {
      hide Lists, Ids, Total, On, Counts, Ring;
      ServerKeep(reqs, servers, s, v);
      RingKeys(servers, servers[s := v], ring);
      assert Up(servers[s := v]) == Up(servers);
      servers := servers[s := v];
    }

    /** nameserver_failed: mark the server as down, and give requests that were not sent yet to others,
        if any server is still good. */
    method NameserverFailed(s: nat)
      requires Valid() && s in servers
      modifies this`reqs, this`servers, this`ring, this`good
      ensures Valid() && OnlyMoved(old(reqs), reqs)
      ensures SameProbes(old(servers), servers) && SameTimeouts(old(servers), servers)
      ensures Up(servers) == Up(old(servers)) - {s} && good == old(good) - One(old(servers)[s].up)
      ensures old(servers)[s].up && good > 0 ==> forall h :: h in reqs && reqs[h].ns == Some(s) ==> reqs[h].txCount > 0
      ensures MovedFrom(s, old(reqs)) && SameChoked(old(servers), servers)
      ensures !old(servers)[s].up ==> servers == old(servers) && ring == old(ring) && reqs == old(reqs)
      ensures old(servers)[s].up ==> servers[s].failedTimes == 1
    {
      hide Lists, Ids, Total, On, Counts, Ring, Bump;
      if !servers[s].up {
        assert Up(servers) == Up(servers) - {s};
        return;
      }
      MarkDown(s);
      if good == 0 {
        return;
      }
      Reassign(s);
    }

    method MarkDown(s: nat)
      requires Valid() && s in servers && servers[s].up
      modifies this`servers, this`good
      ensures Valid() && SameProbes(old(servers), servers) && SameTimeouts(old(servers), servers)
      ensures servers == old(servers)[s := old(servers)[s].(up := false, failedTimes := 1)]
      ensures Up(servers) == Up(old(servers)) - {s} && good == old(good) - 1
    {
      hide Lists, Ids, Total, On, Counts, Ring, Bump;
      var v := servers[s].(up := false, failedTimes := 1);
      ServerKeep(reqs, servers, s, v);
      RingKeys(servers, servers[s := v], ring);
      servers := servers[s := v];
      good := good - 1;
    }

    /** No request of the bucket is still to be sent to the server s. */
    ghost predicate Cleared(i: nat, s: nat)
      reads this
    {
      i < |heads| && forall h :: h in heads[i] && h in reqs && reqs[h].ns == Some(s) ==> reqs[h].txCount > 0
    }

    /** Only requests that were on the server s and not sent yet have moved, and those to good servers. */
    ghost predicate MovedFrom(s: nat, before: map<nat, Request>)
      reads this
    {
      OnlyMoved(before, reqs) &&
      forall h :: h in before ==>
        reqs[h] == before[h] ||
        (before[h].ns == Some(s) && before[h].txCount == 0 && reqs[h].ns.Some? && reqs[h].ns.value in Up(servers))
    }

    /** The walk over all inflight requests. */
    method Reassign(s: nat)
      requires Valid() && s in servers && s !in Up(servers) && good > 0
      modifies this`reqs, this`servers, this`ring
      ensures Valid() && OnlyMoved(old(reqs), reqs) && SameServers(old(servers), servers)
      ensures forall h :: h in reqs && reqs[h].ns == Some(s) ==> reqs[h].txCount > 0
      ensures MovedFrom(s, old(reqs))
    {
      hide Ids, Total, On, Counts, Ring, Up, Valid, Lists, Bucket, Cleared;
      for i := 0 to |heads|
        invariant Valid() && SameServers(old(servers), servers) && MovedFrom(s, old(reqs))
        invariant forall b :: 0 <= b < i ==> Cleared(b, s)
        modifies this`reqs, this`servers, this`ring
      {
        ReassignBucket(s, i);
      }
      AllInBuckets();
      AllCleared(s);
    }

    lemma AllCleared(s: nat)
      requires forall b :: 0 <= b < |heads| ==> Cleared(b, s)
      requires forall h :: h in reqs && reqs[h].ns.Some? ==> exists i :: 0 <= i < |heads| && h in heads[i]
      ensures forall h :: h in reqs && reqs[h].ns == Some(s) ==> reqs[h].txCount > 0
    {
      forall h | h in reqs && reqs[h].ns == Some(s)
        ensures reqs[h].txCount > 0
      {
        var i :| 0 <= i < |heads| && h in heads[i];
        assert Cleared(i, s);
      }
    }

    method ReassignBucket(s: nat, i: nat)
      requires Valid() && s in servers && s !in Up(servers) && good > 0 && i < |heads|
      modifies this`reqs, this`servers, this`ring
      ensures Valid() && SameServers(old(servers), servers) && Cleared(i, s) && MovedFrom(s, old(reqs))
      ensures forall b :: old(Cleared(b, s)) ==> Cleared(b, s)
    {
      hide Ids, Total, On, Counts, Ring, Up, Valid, Lists, Bucket, SameServers, SameProbes, SameTimeouts;
      ghost var before := servers;
      SameTwice(before, before, before, s);
      for j := 0 to |heads[i]|
        invariant s in servers && s !in Up(servers)
        invariant Valid() && SameServers(old(servers), servers) && MovedFrom(s, old(reqs))
        invariant forall k :: 0 <= k < j && heads[i][k] in reqs && reqs[heads[i][k]].ns == Some(s) ==>
                  reqs[heads[i][k]].txCount > 0
        invariant forall h :: h in reqs && reqs[h].ns == Some(s) ==> old(reqs)[h].ns == Some(s)
        modifies this`reqs, this`servers, this`ring
      {
        InBucket(i, j);
        ghost var was := servers;
        ReassignOne(heads[i][j], s);
        SameTwice(before, was, servers, s);
      }
    }

    /** A request still waiting to go out can be moved to another server. */
    method ReassignOne(h: nat, s: nat)
      requires Valid() && h in reqs && reqs[h].ns.Some? && s in servers && s !in Up(servers) && good > 0
      modifies this`reqs, this`servers, this`ring
      ensures Valid() && OnlyMoved(old(reqs), reqs) && SameServers(old(servers), servers)
      ensures reqs[h].ns == Some(s) ==> reqs[h].txCount > 0 && old(reqs)[h].ns == Some(s)
      ensures forall k :: k in reqs && (k != h || old(reqs)[h].ns != Some(s)) ==> reqs[k] == old(reqs)[k]
      ensures reqs[h] == old(reqs)[h] ||
              (old(reqs)[h].txCount == 0 && reqs[h].ns.Some? && reqs[h].ns.value in Up(servers))
    {
      hide Valid;
      if reqs[h].txCount == 0 && reqs[h].ns == Some(s) {
        var p := Pick();
        assert p.Some? && p.value in Up(servers) by { OneUp(); }
        SwapNs(h, p);
      }
    }

    lemma OneUp()
      requires Valid() && good > 0
      ensures servers != map[]
    {
    }

    /** evdns_request_transmit: unless the server is choked the packet goes out, or cannot for now, or the server turns
        out to be bad; in the last case it counts as sent. */
    method Transmit(h: nat)
      requires Valid() && h in reqs && reqs[h].ns.Some?
      modifies this`reqs, this`servers, this`ring, this`good, this`tries
      ensures Valid() && SameQueues(old(reqs), reqs) && h in reqs
      ensures NoneRevived(old(servers), servers) && SameTimeouts(old(servers), servers)
      ensures StayChoked(old(servers), servers)
      ensures reqs[h].txCount == old(reqs)[h].txCount + One(!reqs[h].transmitMe)
      ensures forall k :: k in reqs && k != h ==> reqs[k] == old(reqs)[k].(ns := reqs[k].ns)
      ensures AllSentBut(old(reqs), h) ==> AllSent(reqs)
      ensures var choked := ChokedAt(old(reqs), old(servers), h);
              && tries == old(tries) + One(!choked)
              && GoesOut(old(reqs)[h], reqs[h], choked, socket(old(tries)))
              && Tried(old(reqs), old(servers), reqs, servers, h, choked, socket(old(tries)))
      ensures old(reqs)[h].txCount == 0 && OnGood(old(reqs), old(servers), h) ==> OnGood(reqs, servers, h)
      ensures Calm(old(reqs), old(servers), old(ring), reqs, servers, ring, socket, old(tries), tries)
    {
      hide Valid, Up, SameQueues, OnlyMoved, AllSent, AllSentBut, OnGood, SameProbes, SameTimeouts, StayChoked, Tried;
      hide Calm;
      InflightFacts(h);
      ghost var before, was := reqs, servers;
      Touch(h, reqs[h].(transmitMe := true));
      assert reqs[h].transId != NO_ID;
      if servers[reqs[h].ns.value].choked {
        SameTwice(was, was, was, 0);
        NoneUp(was, was);
        Marked(before, was, reqs, h);
        ChokedStay(was, was);
        OneTried(before, reqs, h, reqs[h]);
        TriedOnce(before, reqs, h);
        StillGood(before, was, reqs, servers, h);
        CalmHere(before, was, reqs, servers, ring, socket, tries, tries, h);
        Went(before, was, reqs, servers, h, true, socket(old(tries)));
        return;
      }
      GivePacket(h, before);
      Went(before, was, reqs, servers, h, false, socket(old(tries)));
    }

    /** evdns_request_transmit_to, and what follows from its result. */
    method GivePacket(h: nat, ghost before: map<nat, Request>)
      requires Valid() && h in reqs && reqs[h].ns.Some? && reqs[h].ns.value in servers
      requires h in before && reqs == before[h := before[h].(transmitMe := true)] && !servers[reqs[h].ns.value].choked
      modifies this`reqs, this`servers, this`ring, this`good, this`tries
      ensures Valid() && SameQueues(before, reqs) && h in reqs && OnlyTried(before, reqs, h)
      ensures NoneRevived(old(servers), servers) && SameTimeouts(old(servers), servers)
      ensures StayChoked(old(servers), servers)
      ensures AllSentBut(before, h) ==> AllSent(reqs)
      ensures tries == old(tries) + 1
      ensures Tried(before, old(servers), reqs, servers, h, false, socket(old(tries)))
      ensures before[h].txCount == 0 && OnGood(before, old(servers), h) ==> OnGood(reqs, servers, h)
      ensures Calm(before, old(servers), old(ring), reqs, servers, ring, socket, old(tries), tries)
    {
      hide Valid, Up, SameQueues, OnlyMoved, AllSent, AllSentBut, OnGood, SameProbes, SameTimeouts, StayChoked, Tried;
      hide Calm, SameChoked, BlockedIn, NoneRevived, SameServers, OnlyTried;
      ghost var was, t := servers, tries;
      Unchanged(was);
      var r := Send();
      if r == Blocked {
        OneTried(before, reqs, h, reqs[h]);
        Choke(h, before, t);
      } else if r == Broken {
        FailOn(h, before, t);
      } else {
        CountSent(h);
        OneTried(before, reqs, h, reqs[h]);
        SentNow(before, was, reqs, h);
        CalmHere(before, was, reqs, servers, ring, socket, t, t + 1, h);
      }
      TriedOnce(before, reqs, h);
    }

    /** The packet could not be sent for now. */
    method Choke(h: nat, ghost before: map<nat, Request>, ghost t: nat)
      requires Valid() && h in reqs && reqs[h].ns.Some? && reqs[h].ns.value in servers && socket(t) == Blocked
      requires h in before && reqs == before[h := before[h].(transmitMe := true)]
      modifies this`servers
      ensures Valid() && NoneRevived(old(servers), servers) && SameTimeouts(old(servers), servers)
      ensures StayChoked(old(servers), servers)
      ensures Tried(before, old(servers), reqs, servers, h, false, Blocked)
      ensures OnGood(before, old(servers), h) ==> OnGood(reqs, servers, h)
      ensures Calm(before, old(servers), ring, reqs, servers, ring, socket, t, t + 1)
    {
      hide Valid, Up, OnGood, SameProbes, SameTimeouts, StayChoked, SameChoked, Tried, Calm, BlockedIn;
      ghost var was := servers;
      var s := reqs[h].ns.value;
      TouchServer(s, servers[s].(choked := true));
      BlockedOnce(before, was, reqs, servers, h);
      JustBlocked(socket, t);
      CalmHere(before, was, reqs, servers, ring, socket, t, t + 1, h);
    }

    /** The transmission counts, whether the packet went out or the server is bad. */
    method CountSent(h: nat)
      requires Valid() && h in reqs && reqs[h].ns.Some?
      modifies this`reqs
      ensures Valid() && h in reqs
      ensures reqs == old(reqs)[h := old(reqs)[h].(txCount := old(reqs)[h].txCount + 1, transmitMe := false)]
    {
      hide Valid, Up, SameQueues;
      Touch(h, reqs[h].(txCount := reqs[h].txCount + 1, transmitMe := false));
    }

    /** The server that the request was given to is bad. */
    method FailOn(h: nat, ghost before: map<nat, Request>, ghost t: nat)
      requires Valid() && h in reqs && reqs[h].ns.Some? && reqs[h].ns.value in servers
      requires h in before && reqs == before[h := before[h].(transmitMe := true)]
      modifies this`reqs, this`servers, this`ring, this`good
      ensures Valid() && NoneRevived(old(servers), servers) && SameTimeouts(old(servers), servers)
      ensures StayChoked(old(servers), servers) && h in reqs && OnlyTried(before, reqs, h)
      ensures Tried(before, old(servers), reqs, servers, h, false, Broken)
      ensures before[h].txCount == 0 && OnGood(before, old(servers), h) ==> OnGood(reqs, servers, h)
      ensures Calm(before, old(servers), old(ring), reqs, servers, ring, socket, t, t + 1)
    {
      hide Valid, Up, SameQueues, OnGood, SameProbes, SameTimeouts, StayChoked, Calm, SameChoked, OnlyTried;
      ghost var was, marked, s := servers, reqs, reqs[h].ns.value;
      NameserverFailed(reqs[h].ns.value);
      IsUp(was, s);
      GoodUp();
      ChokedStay(was, servers);
      ghost var moved := reqs;
      CountSent(h);
      FailTried(before, moved, reqs, h);
      CalmFailed(before, was, old(ring), reqs, servers, ring, socket, t, s, h, moved);
      StillGood(before, was, reqs, servers, h);
    }

    lemma GoodUp()
      requires Valid()
      ensures good > 0 <==> Up(servers) != {}
    {
    }

    /** Give the next packet to a socket. */
    method Send() returns (r: Outcome)
      requires Valid()
      modifies this`tries
      ensures Valid() && r == socket(old(tries)) && tries == old(tries) + 1
    {
      r := socket(tries);
      tries := tries + 1;
    }

    lemma InflightFacts(h: nat)
      requires Valid() && h in reqs && reqs[h].ns.Some?
      ensures reqs[h].ns.value in servers && reqs[h].transId < NO_ID
    {
    }

    /** evdns_transmit: send whatever is marked to be sent; what is marked afterwards is on a choked server, unless some
        server failed meanwhile. */
    method TransmitAll()
      requires Valid()
      modifies this`reqs, this`servers, this`ring, this`good, this`tries
      ensures Valid() && SameQueues(old(reqs), reqs) && NoneRevived(old(servers), servers) && SentOnce(old(reqs), reqs)
      ensures StayChoked(old(servers), servers) && (AllSent(old(reqs)) ==> AllSent(reqs))
      ensures Up(servers) == Up(old(servers)) ==> NoneLeft(reqs, servers)
      ensures Calm(old(reqs), old(servers), old(ring), reqs, servers, ring, socket, old(tries), tries)
    {
      hide Valid, Up, Progress, Handled, ListsHandled, Calm;
      ProgressNone(reqs, servers);
      CalmAt(reqs, servers, ring, socket, tries);
      NoLists(reqs, servers, heads, Up(servers));
      for i := 0 to |heads|
        invariant Valid() && Progress(old(reqs), old(servers), reqs, servers)
        invariant ListsHandled(reqs, servers, heads, i, 0, Up(old(servers)))
        invariant Calm(old(reqs), old(servers), old(ring), reqs, servers, ring, socket, old(tries), tries)
        modifies this`reqs, this`servers, this`ring, this`good, this`tries
      {
        TransmitBucket(i, old(reqs), old(servers), old(ring), old(tries));
      }
      ProgressMade(old(reqs), old(servers), reqs, servers);
      AllInBuckets();
      AllHandled(reqs, servers, heads, Up(old(servers)));
    }

    /** One bucket. */
    method TransmitBucket(i: nat, ghost a: map<nat, Request>, ghost us: map<nat, Server>, ghost was: seq<nat>,
                          ghost t: nat)
      requires Valid() && i < |heads| && Progress(a, us, reqs, servers)
      requires Calm(a, us, was, reqs, servers, ring, socket, t, tries)
      requires ListsHandled(reqs, servers, heads, i, 0, Up(us))
      modifies this`reqs, this`servers, this`ring, this`good, this`tries
      ensures Valid() && Progress(a, us, reqs, servers)
      ensures ListsHandled(reqs, servers, heads, i + 1, 0, Up(us))
      ensures Calm(a, us, was, reqs, servers, ring, socket, t, tries)
    {
      hide Valid, Up, Progress, Handled, Tried, SameQueues, ListsHandled, Calm;
      for j := 0 to |heads[i]|
        invariant Valid() && Progress(a, us, reqs, servers)
        invariant ListsHandled(reqs, servers, heads, i, j, Up(us))
        invariant Calm(a, us, was, reqs, servers, ring, socket, t, tries)
        modifies this`reqs, this`servers, this`ring, this`good, this`tries
      {
        InBucket(i, j);
        ghost var h, b, ss, between, n := heads[i][j], reqs, servers, ring, tries;
        if reqs[heads[i][j]].transmitMe {
          Transmit(heads[i][j]);
          ProgressStep(a, us, b, ss, reqs, servers, h);
          StillHandled(b, ss, reqs, servers, heads, i, j, Up(us));
          SameRequests(a, us, b, ss);
          CalmTwice(a, us, was, b, ss, between, reqs, servers, ring, socket, t, n, tries);
        } else {
          OneHandled(reqs, servers, heads, i, j, Up(us));
        }
      }
      NextList(reqs, servers, heads, i, Up(us));
    }

    /** nameserver_ready_callback, when the socket can be written to: the server is not choked any more, and whatever is
        marked is sent. */
    method Ready(s: nat)
      requires Valid() && s in servers
      modifies this`reqs, this`servers, this`ring, this`good, this`tries
      ensures Valid() && SameQueues(old(reqs), reqs) && NoneRevived(old(servers), servers) && SentOnce(old(reqs), reqs)
      ensures AllSent(old(reqs)) ==> AllSent(reqs)
      ensures Up(servers) == Up(old(servers)) ==> NoneLeft(reqs, servers)
      ensures s in servers && (servers[s].choked ==> BlockedIn(socket, old(tries), tries))
    {
      hide Valid, Up, SameQueues, SentOnce, Handled;
      TouchServer(s, servers[s].(choked := false));
      TransmitAll();
    }

    /** request_find_from_trans_id: the bucket of an id is enough to find the request that has it. */
    method Find(id: nat) returns (found: Option<nat>)
      requires Valid()
      ensures found.Some? ==> found.value in reqs && reqs[found.value].ns.Some? && reqs[found.value].transId == id
      ensures found == None <==> IsFree(reqs, id)
    {
      hide Ids, Total, On, Counts, Ring, Up, Bucket;
      var l := heads[Bucket(id, |heads|)];
      for j := 0 to |l|
        invariant forall k :: 0 <= k < j ==> reqs[l[k]].transId != id
      {
        assert l[j] in l;
        if reqs[l[j]].transId == id {
          return Some(l[j]);
        }
      }
      found := None;
    }

    /** transaction_id_pick: some id that no inflight request has. */
    method PickId() returns (id: nat)
      requires Valid() && inflight < NO_ID
      ensures id < NO_ID && IsFree(reqs, id)
    {
      hide Lists, Total, On, Counts, Ring, Up, Bucket, Ids;
      ghost var free := FreeId(reqs, heads, waiting, NO_ID);
      id :| id < NO_ID && IsFree(reqs, id);
      var found := Find(id);
      assert found == None;
    }

    /** Move the first waiting request to the inflight queue. */
    method Promote(h: nat, s: nat)
      requires Valid() && waiting != [] && h == waiting[0] && s in servers && inflight < NO_ID
      modifies this`reqs, this`servers, this`heads, this`waiting, this`waitingCount, this`inflight
      ensures Valid() && waiting == old(waiting)[1..] && SameServers(old(servers), servers)
      ensures reqs.Keys == old(reqs).Keys && h in reqs && reqs[h].ns == Some(s)
      ensures forall k :: k in reqs && k != h ==> reqs[k] == old(reqs)[k]
      ensures inflight == old(inflight) + 1 && PlacedAt(old(reqs), reqs, h, s)
    {
      hide Lists, Ids, Counts, Total, On, Ring, Up, Bucket, Without, Valid;
      WaitingFacts(h);
      WithoutFirst(waiting);
      var r := reqs[h];
      Discard(h);
      var id := PickId();
      Enter(h, r.(ns := Some(s), transId := id));
    }

    lemma WaitingFacts(h: nat)
      requires Valid() && h in waiting
      ensures h in reqs && reqs[h].ns == None && NoDup(waiting)
    {
    }

    /** evdns_requests_pump_waiting_queue: afterwards nothing waits that could be inflight. */
    method Pump()
      requires Valid()
      modifies this`reqs, this`servers, this`ring, this`good, this`tries, this`heads, this`waiting,
               this`waitingCount, this`inflight
      ensures Valid() && reqs.Keys == old(reqs).Keys && StillInflight(old(reqs), reqs) &&
              NoneRevived(old(servers), servers)
      ensures Busy()
      ensures IsSuffix(waiting, old(waiting))
      ensures old(waiting) == [] ==> reqs == old(reqs) && servers == old(servers) && ring == old(ring)
      ensures AllSent(old(reqs)) ==> AllSent(reqs)
      ensures inflight == old(inflight) + |old(waiting)| - |waiting|
      ensures inflight <= maxInflight || waiting == old(waiting)
      ensures Up(servers) == Up(old(servers)) ==> Pumped(old(reqs), reqs, servers, waiting != old(waiting))
    {
      hide Valid, Up, AllSent, Pumped, StillInflight, NoneRevived, SameServers, IsSuffix, PlacedAt, NoneLeft;
      PumpedNone(reqs, servers);
      Unchanged(servers);
      Whole(reqs, waiting);
      Sizes();
      while inflight < maxInflight && waitingCount > 0
        invariant AllSent(old(reqs)) ==> AllSent(reqs)
        invariant Up(servers) == Up(old(servers)) ==> Pumped(old(reqs), reqs, servers, waiting != old(waiting))
        invariant inflight == old(inflight) + |old(waiting)| - |waiting|
        invariant inflight <= maxInflight || waiting == old(waiting)
        invariant old(waiting) == [] ==> reqs == old(reqs) && servers == old(servers) && ring == old(ring)
        invariant Valid() && waitingCount == |waiting| && maxInflight <= NO_ID && reqs.Keys == old(reqs).Keys
        invariant StillInflight(old(reqs), reqs) && NoneRevived(old(servers), servers)
        invariant IsSuffix(waiting, old(waiting))
        decreases |waiting|
        modifies this`reqs, this`servers, this`ring, this`good, this`tries, this`heads, this`waiting, this`waitingCount,
                 this`inflight
      {
        assert waiting != [];
        var h := waiting[0];
        WaitingFacts(h);
        GoodUp();
        var s := Pick();
        if s == None {
          return;
        }
        IsUp(servers, s.value);
        ghost var b, us, was := reqs, servers, waiting;
        PumpFirst(h, s.value);
        Sizes();
        UpLess(us, servers);
        StillDown(old(servers), us, servers);
        UpLess(old(servers), us);
        StillTwice(old(reqs), b, reqs);
        PumpedMore(old(reqs), b, us, reqs, servers, h, s.value, was != old(waiting));
        SuffixShorter(was, old(waiting));
      }
    }

    lemma Sizes()
      requires Valid()
      ensures waitingCount == |waiting| && maxInflight <= NO_ID
    {
    }

    /** The first waiting request goes inflight and is sent. */
    method PumpFirst(h: nat, s: nat)
      requires Valid() && waiting != [] && h == waiting[0] && s in servers && inflight < NO_ID
      modifies this`reqs, this`servers, this`ring, this`good, this`tries, this`heads, this`waiting,
               this`waitingCount, this`inflight
      ensures Valid() && reqs.Keys == old(reqs).Keys && StillInflight(old(reqs), reqs) &&
              NoneRevived(old(servers), servers)
      ensures waiting == old(waiting)[1..] && inflight == old(inflight) + 1
      ensures AllSent(old(reqs)) ==> AllSent(reqs)
      ensures Up(servers) == Up(old(servers)) ==> NoneLeft(reqs, servers) && ring == old(ring)
      ensures Up(servers) == Up(old(servers)) ==> PlacedAt(old(reqs), reqs, h, s)
    {
      hide Valid, Up, SameProbes, NoneRevived, SameServers, AllSent, AllSentBut, StillInflight, SameQueues, Tried;
      hide Calm, NoneLeft, PlacedAt, SameChoked;
      WaitingFacts(h);
      ghost var a, a0 := servers, reqs;
      Promote(h, s);
      ghost var b, b0, r := servers, reqs, ring;
      ghost var t := tries;
      Promoted(a0, b0, h);
      Transmit(h);
      ghost var c, c0, r1 := servers, reqs, ring;
      ghost var n := tries;
      QueuesInflight(b0, c0);
      StillTwice(a0, b0, c0);
      TransmitAll();
      QueuesInflight(c0, reqs);
      StillTwice(a0, c0, reqs);
      NoneUp(a, b);
      StillDown(a, b, c);
      UpLess(b, c);
      UpLess(c, servers);
      SameTwice(a, b, b, 0);
      StillDown(a, c, servers);
      CalmTwice(b0, b, r, c0, c, r1, reqs, servers, ring, socket, t, n, tries);
      NowPlaced(a0, b0, b, r, reqs, servers, ring, socket, t, tries, h, s);
    }

    /** request_finished: take the request out of its queue and its counts, and fill the room. */
    method Finished(h: nat)
      requires Valid() && h in reqs
      modifies this`reqs, this`servers, this`ring, this`good, this`tries, this`heads, this`waiting,
               this`waitingCount, this`inflight
      ensures Valid() && reqs.Keys == old(reqs).Keys - {h} && StillInflight(old(reqs), reqs) &&
              NoneRevived(old(servers), servers)
      ensures Busy()
      ensures IsSuffix(waiting, Without(old(waiting), h))
      ensures old(waiting) == [] ==> SameProbes(old(servers), servers) && ring == old(ring)
      ensures old(waiting) == [] ==> waiting == [] && Up(servers) == Up(old(servers)) && reqs == old(reqs) - {h}
      ensures AllSent(old(reqs)) ==> AllSent(reqs)
      ensures inflight <= old(inflight) || inflight <= maxInflight
      ensures Up(servers) == Up(old(servers)) ==>
                Pumped(old(reqs) - {h}, reqs, servers, waiting != Without(old(waiting), h))
    {
      hide Valid, Up, AllSent, StillInflight, NoneRevived, SameServers, SameProbes, Pumped;
      ghost var a, us := reqs, servers;
      Discard(h);
      ghost var b, ss := reqs, servers;
      Dropped(a, b, h);
      NoneUp(us, ss);
      SameTwice(us, ss, ss, 0);
      WithoutLess(old(waiting), h);
      Pump();
      StillDown(us, ss, servers);
      StillTwice(a, b, reqs);
    }

    method Discard(h: nat)
      requires Valid() && h in reqs
      modifies this`reqs, this`servers, this`heads, this`waiting, this`waitingCount, this`inflight
      ensures Valid() && reqs == old(reqs) - {h} && SameServers(old(servers), servers)
      ensures waiting == Without(old(waiting), h) && SameProbes(old(servers), servers)
      ensures inflight == old(inflight) - One(old(reqs)[h].ns.Some?)
    {
      hide Lists, Ids, Counts, Total, On, Ring, Up, Bucket, Without, Bump;
      IdsTake(reqs, h);
      CountsTake(reqs, servers, h);
      if reqs[h].ns.Some? {
        InflightFacts(h);
        RemoveInflight(reqs, heads, waiting, h);
        NotWaiting(h);
        var s, i := reqs[h].ns.value, Bucket(reqs[h].transId, |heads|);
        Bumped(servers, Some(s), 0 - 1);
        BumpOne(servers, s, 0 - 1);
        heads := heads[i := Without(heads[i], h)];
        inflight := inflight - 1;
        servers := servers[s := servers[s].(inflight := servers[s].inflight - 1)];
        RingKeys(old(servers), servers, ring);
      } else {
        RemoveWaiting(reqs, heads, waiting, h);
        Bumped(servers, None, 0 - 1);
        waiting := Without(waiting, h);
        waitingCount := waitingCount - 1;
      }
      reqs := reqs - {h};
    }

    lemma NotWaiting(h: nat)
      requires Valid() && h in reqs && reqs[h].ns.Some?
      ensures Without(waiting, h) == waiting
    {
      WithoutOther(waiting, h);
    }

    /** request_new and request_submit: with room and a server the request goes inflight, otherwise it waits. */
    method Resolve(h: nat)
      requires Valid() && h !in reqs
      modifies this`reqs, this`servers, this`ring, this`good, this`tries, this`heads, this`waiting,
               this`waitingCount, this`inflight
      ensures Valid() && reqs.Keys == old(reqs).Keys + {h} && StillInflight(old(reqs), reqs) &&
              NoneRevived(old(servers), servers)
      ensures reqs[h].ns.Some? <==> old(inflight) < maxInflight && servers != map[]
      ensures waiting == if reqs[h].ns.Some? then old(waiting) else old(waiting) + [h]
      ensures old(Busy()) ==> Busy()
      ensures inflight == old(inflight) + One(reqs[h].ns.Some?)
      ensures reqs[h].ns.Some? ==> OnGood(reqs, servers, h) && Fresh(reqs[h])
      ensures reqs[h].ns.Some? && Up(servers) == Up(old(servers)) ==>
                && Picked(old(servers), old(ring), ring, reqs[h].ns.value)
                && (reqs[h].transmitMe <==>
                      old(servers)[reqs[h].ns.value].choked || socket(old(tries)) == Blocked)
      ensures reqs[h].ns == None ==> reqs[h] == Request(None, reqs[h].transId, 0, 0, false) && ring == old(ring)
      ensures old(inflight) >= maxInflight ==> reqs[h].transId == NO_ID
      ensures AllSent(old(reqs)) ==> AllSent(reqs)
    {
      hide Lists, Ids, Counts, Total, On, Ring, Up, Bucket;
      var s, id: nat := None, NO_ID;
      if inflight < maxInflight {
        id := PickId();
        s := Pick();
        GoodUp();
        if s.Some? { IsUp(servers, s.value); }
      }
      Submit(h, Request(s, id, 0, 0, false));
    }

    /** request_submit */
    method Submit(h: nat, r: Request)
      requires Valid() && h !in reqs
      requires r.ns.Some? ==> r.ns.value in servers && r.transId < NO_ID && IsFree(reqs, r.transId)
      modifies this`reqs, this`servers, this`ring, this`good, this`tries, this`heads, this`waiting,
               this`waitingCount, this`inflight
      ensures Valid() && reqs.Keys == old(reqs).Keys + {h} && StillInflight(old(reqs), reqs) &&
              NoneRevived(old(servers), servers)
      ensures reqs[h].ns.Some? == r.ns.Some?
      ensures waiting == if r.ns.Some? then old(waiting) else old(waiting) + [h]
      ensures inflight == old(inflight) + One(r.ns.Some?)
      ensures r.ns.Some? ==> GoesOut(r, reqs[h], old(servers)[r.ns.value].choked, socket(old(tries)))
      ensures tries == old(tries) + One(r.ns.Some? && !old(servers)[r.ns.value].choked)
      ensures r.ns.Some? && Up(servers) == Up(old(servers)) ==> ring == old(ring) && reqs[h].ns == r.ns
      ensures r.ns.Some? && r.txCount == 0 && (Up(old(servers)) != {} ==> r.ns.value in Up(old(servers))) ==>
                OnGood(reqs, servers, h)
      ensures r.ns == None ==> reqs == old(reqs)[h := r] && ring == old(ring)
      ensures AllSent(old(reqs)) ==> AllSent(reqs)
    {
      hide Lists, Ids, Counts, Total, On, Ring, Up, Bucket, Bump;
      if r.ns.Some? {
        EnterAndSend(h, r);
      } else {
        AddWaiting(reqs, heads, waiting, h, r);
        IdsKeep(reqs, h, r);
        CountsPut(reqs, servers, h, r);
        Bumped(servers, None, 0 - 1);
        Bumped(servers, None, 1);
        waiting := waiting + [h];
        waitingCount := waitingCount + 1;
        reqs := reqs[h := r];
      }
    }

    /** The request has a server: it is inflight, and is sent. */
    method EnterAndSend(h: nat, r: Request)
      requires Valid() && h !in reqs && r.ns.Some? && r.ns.value in servers && r.transId < NO_ID &&
               IsFree(reqs, r.transId)
      modifies this`reqs, this`servers, this`ring, this`good, this`tries, this`heads, this`inflight
      ensures Valid() && reqs.Keys == old(reqs).Keys + {h} && StillInflight(old(reqs), reqs) &&
              NoneRevived(old(servers), servers) && reqs[h].ns.Some?
      ensures GoesOut(r, reqs[h], old(servers)[r.ns.value].choked, socket(old(tries)))
      ensures tries == old(tries) + One(!old(servers)[r.ns.value].choked) && inflight == old(inflight) + 1
      ensures Up(servers) == Up(old(servers)) ==> ring == old(ring) && reqs[h].ns == r.ns
      ensures r.txCount == 0 && (Up(old(servers)) != {} ==> r.ns.value in Up(old(servers))) ==>
                OnGood(reqs, servers, h)
      ensures AllSent(old(reqs)) ==> AllSent(reqs)
    {
      hide Valid, Up, SameQueues, AllSent, AllSentBut, SameProbes, SameTimeouts, StayChoked, Tried, GoesOut;
      ghost var a, us := reqs, servers;
      Enter(h, r);
      ghost var b, ss := reqs, servers;
      NewSent(a, b, h, r);
      NoneUp(us, ss);
      SameTwice(us, ss, ss, 0);
      QueuesInflight(b, b);
      Transmit(h);
      QueuesInflight(b, reqs);
      NewInflight(a, b, reqs, h, r);
      StillDown(us, ss, servers);
    }

    /** Put a new request straight into the inflight queue. */
    method Enter(h: nat, r: Request)
      requires Valid() && h !in reqs && r.ns.Some? && r.ns.value in servers && r.transId < NO_ID &&
               IsFree(reqs, r.transId)
      modifies this`reqs, this`servers, this`heads, this`inflight
      ensures Valid() && reqs == old(reqs)[h := r] && SameServers(old(servers), servers) &&
              inflight == old(inflight) + 1
    {
      hide Lists, Ids, Counts, Total, On, Ring, Up, Bucket, Bump;
      AddInflight(reqs, heads, waiting, h, r);
      var s, i := r.ns.value, Bucket(r.transId, |heads|);
      IdsAdd(reqs, h, r);
      CountsPut(reqs, servers, h, r);
      Bumped(servers, None, 0 - 1);
      Bumped(servers, Some(s), 1);
      BumpOne(servers, s, 1);
      heads := heads[i := heads[i] + [h]];
      inflight := inflight + 1;
      servers := servers[s := servers[s].(inflight := servers[s].inflight + 1)];
      RingKeys(old(servers), servers, ring);
      reqs := reqs[h := r];
    }

    /** nameserver_send_probe: a probe goes inflight however many requests already are. */
    method SendProbe(s: nat, h: nat)
      requires Valid() && s in servers && h !in reqs && inflight < NO_ID
      modifies this`reqs, this`servers, this`ring, this`good, this`tries, this`heads, this`waiting,
               this`waitingCount, this`inflight
      ensures Valid() && reqs.Keys == old(reqs).Keys + {h} && reqs[h].ns.Some? && servers.Keys == old(servers).Keys
      ensures waiting == old(waiting) && Up(servers) <= Up(old(servers)) && servers[s].probe == Some(h)
      ensures forall k :: k in servers && k != s ==> servers[k].probe == old(servers)[k].probe
      ensures old(Busy()) ==> Busy()
      ensures inflight == old(inflight) + 1 && Fresh(reqs[h])
      ensures Up(servers) == Up(old(servers)) ==>
                && reqs[h].ns == Some(s)
                && (reqs[h].transmitMe <==> old(servers)[s].choked || socket(old(tries)) == Blocked)
                && if old(inflight) < maxInflight then exists x :: Picked(old(servers), old(ring), ring, x)
                   else ring == old(ring)
      ensures AllSent(old(reqs)) ==> AllSent(reqs)
    {
      hide Lists, Ids, Counts, Total, On, Ring, Up, Bucket;
      if inflight < maxInflight {
        var unused := PickId();
        var other := Pick();
      }
      TouchServer(s, servers[s].(probe := Some(h)));
      var id := PickId();
      Submit(h, Request(Some(s), id, 0, 0, false));
    }

    /** Give the request to the next good server. */
    method SwapToNext(h: nat)
      requires Valid() && h in reqs && reqs[h].ns.Some?
      modifies this`reqs, this`servers, this`ring
      ensures Valid() && OnlyMoved(old(reqs), reqs) && SameServers(old(servers), servers)
      ensures h in reqs && reqs == old(reqs)[h := old(reqs)[h].(ns := reqs[h].ns)] && reqs[h].ns.Some?
      ensures Picked(old(servers), old(ring), ring, reqs[h].ns.value)
      ensures good > 0 ==> Up(old(servers)) != {} && Up(servers) != {}
      ensures Up(servers) != {} ==> reqs[h].ns.value in Up(servers) && good > 0
    {
      hide Valid, Up, SameServers, OnlyMoved, Picked;
      ghost var was := servers;
      InflightFacts(h);
      GoodUp();
      var p := Pick();
      assert p.Some?;
      IsUp(servers, p.value);
      SwapNs(h, p);
      SameTwice(was, servers, servers, 0);
    }

    /** request_reissue: 1 if no other server could be found. */
    method Reissue(h: nat) returns (r: int)
      requires Valid() && h in reqs && reqs[h].ns.Some?
      modifies this`reqs, this`servers, this`ring
      ensures Valid() && SameQueues(old(reqs), reqs) && NoneRevived(old(servers), servers)
      ensures r == 1 ==> reqs == old(reqs)
      ensures r != 1 ==> r == 0 && reqs[h].ns != old(reqs)[h].ns && reqs[h].txCount == 0 && reqs[h].transmitMe
      ensures r != 1 ==> reqs[h].reissueCount == old(reqs)[h].reissueCount + 1
      ensures forall k :: k in reqs && k != h ==> reqs[k] == old(reqs)[k]
      ensures good > 0 && old(reqs)[h].ns.value !in Up(servers) ==> r == 0 && reqs[h].ns.value in Up(servers)
      ensures AllSent(old(reqs)) ==> AllSent(reqs)
      ensures SameServers(old(servers), servers)
      ensures reqs[h].ns.Some? && Picked(old(servers), old(ring), ring, reqs[h].ns.value)
    {
      hide Valid, Up, SameServers, NoneRevived, Picked;
      var last := reqs[h].ns;
      ghost var was := servers;
      SwapToNext(h);
      SameTwice(was, servers, servers, 0);
      NoneUp(was, servers);
      if reqs[h].ns == last {
        assert reqs == old(reqs);
        return 1;
      }
      Touch(h, reqs[h].(reissueCount := reqs[h].reissueCount + 1, txCount := 0, transmitMe := true));
      return 0;
    }

    /** evdns_cancel_request, for a request that may be gone already. */
    method Cancel(h: nat)
      requires Valid()
      modifies this`reqs, this`servers, this`ring, this`good, this`tries, this`heads, this`waiting,
               this`waitingCount, this`inflight
      ensures Valid() && reqs.Keys == old(reqs).Keys - {h} && StillInflight(old(reqs), reqs) &&
              NoneRevived(old(servers), servers)
      ensures old(waiting) == [] ==> waiting == [] && SameProbes(old(servers), servers) && ring == old(ring)
      ensures old(waiting) == [] ==> reqs == old(reqs) - {h}
      ensures old(Busy()) ==> Busy()
      ensures AllSent(old(reqs)) ==> AllSent(reqs)
      ensures inflight <= old(inflight) || inflight <= maxInflight
    {
      hide Valid;
      if h !in reqs {
        return;
      }
      Finished(h);
    }

    /** nameserver_up */
    method NameserverUp(s: nat)
      requires Valid() && s in servers
      modifies this`reqs, this`servers, this`ring, this`good, this`tries, this`heads, this`waiting,
               this`waitingCount, this`inflight
      ensures Valid() && StillInflight(old(reqs), reqs) && servers.Keys == old(servers).Keys && servers[s].up
      ensures reqs.Keys == old(reqs).Keys ||
              (old(servers)[s].probe.Some? && reqs.Keys == old(reqs).Keys - {old(servers)[s].probe.value})
      ensures old(servers)[s].probe == None ==> servers[s].probe == None && reqs == old(reqs)
      ensures ProbesFade(old(servers), servers, reqs)
      ensures forall k :: k in servers && k != s ==> servers[k].probe == old(servers)[k].probe
      ensures old(Busy()) ==> Busy()
      ensures old(waiting) == [] ==> waiting == []
      ensures AllSent(old(reqs)) ==> AllSent(reqs)
      ensures inflight <= old(inflight) || inflight <= maxInflight
      ensures old(servers)[s].up ==> servers == old(servers) && reqs == old(reqs)
      ensures !old(servers)[s].up ==> servers[s].failedTimes == 0 && servers[s].timedOut == 0
      ensures Up(old(servers)) == {} ==> Up(servers) == {s}
    {
      hide Valid;
      if servers[s].up {
        return;
      }
      if servers[s].probe.Some? {
        Cancel(servers[s].probe.value);
      }
      Revive(s);
    }

    /** The server counts as good from now on. */
    method Revive(s: nat)
      requires Valid() && s in servers && s !in Up(servers)
      modifies this`servers, this`good
      ensures Valid() && servers.Keys == old(servers).Keys && servers[s].up && servers[s].probe == None
      ensures forall k :: k in servers && k != s ==> servers[k] == old(servers)[k]
      ensures servers[s].failedTimes == 0 && servers[s].timedOut == 0 && Up(servers) == Up(old(servers)) + {s}
    {
      hide Lists, Ids, Counts, Total, On, Ring;
      var v := servers[s].(up := true, probe := None, failedTimes := 0, timedOut := 0);
      ServerKeep(reqs, servers, s, v);
      RingKeys(servers, servers[s := v], ring);
      servers := servers[s := v];
      good := good + 1;
    }

    /** nameserver_probe_callback: the answer to a probe, or its failure.  A cancelled probe changes nothing. */
    method ProbeCallback(s: nat, answer: ProbeAnswer)
      requires Valid() && s in servers
      modifies this`reqs, this`servers, this`ring, this`good, this`tries, this`heads, this`waiting,
               this`waitingCount, this`inflight
      ensures Valid() && reqs == old(reqs) && servers.Keys == old(servers).Keys
      ensures answer.Cancelled? ==> servers == old(servers)
      ensures !answer.Cancelled? ==> servers[s].probe == None
      ensures answer.Answered? ==> servers[s].up
      ensures forall k :: k in servers && k != s ==> servers[k].probe == old(servers)[k].probe
      ensures old(Busy()) ==> Busy()
      ensures inflight <= old(inflight) || inflight <= maxInflight
      ensures answer.Failed? ==>
                servers == old(servers)[s := old(servers)[s].(probe := None, failedTimes := servers[s].failedTimes)] &&
                servers[s].failedTimes == old(servers)[s].failedTimes + One(!servers[s].up)
    {
      hide Valid, Up;
      if answer.Cancelled? {
        return;
      }
      TouchServer(s, servers[s].(probe := None));
      if answer.Answered? {
        NameserverUp(s);
      } else {
        ProbeFailed(s);
      }
    }

    /** nameserver_probe_failed */
    method ProbeFailed(s: nat)
      requires Valid() && s in servers
      modifies this`servers
      ensures Valid()
      ensures servers == old(servers)[s :=
                old(servers)[s].(failedTimes := old(servers)[s].failedTimes + One(!old(servers)[s].up))]
    {
      hide Valid, Up;
      if servers[s].up {
        assert servers[s := servers[s].(failedTimes := servers[s].failedTimes)] == servers;
        return;
      }
      TouchServer(s, servers[s].(failedTimes := servers[s].failedTimes + 1));
    }

    /** evdns_request_timeout_callback: give up on the request and the server, or send it once more to the server s
        and count the timeout there. */
    method Timeout(h: nat) returns (ghost s: nat)
      requires Valid() && h in reqs && reqs[h].ns.Some?
      modifies this`reqs, this`servers, this`ring, this`good, this`tries, this`heads, this`waiting,
               this`waitingCount, this`inflight
      ensures Valid() && StillInflight(old(reqs), reqs) && NoneRevived(old(servers), servers)
      ensures reqs.Keys == if old(reqs)[h].txCount >= maxRetransmits then old(reqs).Keys - {h} else old(reqs).Keys
      ensures old(reqs)[h].txCount >= maxRetransmits ==> s == old(reqs)[h].ns.value && s !in Up(servers)
      ensures old(reqs)[h].txCount < maxRetransmits ==>
                && reqs[h].txCount == old(reqs)[h].txCount + One(!reqs[h].transmitMe)
                && (forall k :: k in reqs && k != h ==> reqs[k] == old(reqs)[k].(ns := reqs[k].ns))
                && s in servers && CountedAt(old(servers), servers, s, maxTimeouts)
                && (Up(servers) == Up(old(servers)) && Up(servers) != {} ==> reqs[h].ns.value in Up(servers))
                && (Up(servers) == Up(old(servers)) ==>
                      SentToNext(h, old(reqs), old(servers), old(ring), old(tries)))
      ensures old(Busy()) ==> Busy()
      ensures AllSent(old(reqs)) ==> AllSent(reqs)
      ensures inflight <= old(inflight) || inflight <= maxInflight
    {
      hide Valid, Without, CountedAt, SentToNext;
      InflightFacts(h);
      if reqs[h].txCount >= maxRetransmits {
        s := reqs[h].ns.value;
        var failed := reqs[h].ns.value;
        Finished(h);
        NameserverFailed(failed);
      } else {
        s := Retry(h);
      }
    }

    /** The request h was given to the next good server and sent there. */
    ghost predicate SentToNext(h: nat, before: map<nat, Request>, was: map<nat, Server>, round: seq<nat>, t: nat)
      reads this
    {
      && h in before && h in reqs && reqs[h].ns.Some? && reqs[h].ns.value in was
      && Picked(was, round, ring, reqs[h].ns.value)
      && GoesOut(before[h], reqs[h], was[reqs[h].ns.value].choked, socket(t))
    }

    /** Send the request again, perhaps to another server; too many timeouts in a row fail that server. */
    method Retry(h: nat) returns (ghost s: nat)
      requires Valid() && h in reqs && reqs[h].ns.Some?
      modifies this`reqs, this`servers, this`ring, this`good, this`tries
      ensures Valid() && SameQueues(old(reqs), reqs) && NoneRevived(old(servers), servers)
      ensures s in servers && servers.Keys == old(servers).Keys && CountedAt(old(servers), servers, s, maxTimeouts)
      ensures reqs[h].txCount == old(reqs)[h].txCount + One(!reqs[h].transmitMe)
      ensures forall k :: k in reqs && k != h ==> reqs[k] == old(reqs)[k].(ns := reqs[k].ns)
      ensures Up(servers) == Up(old(servers)) && Up(servers) != {} ==> reqs[h].ns.value in Up(servers)
      ensures Up(servers) == Up(old(servers)) ==> SentToNext(h, old(reqs), old(servers), old(ring), old(tries))
      ensures AllSent(old(reqs)) ==> AllSent(reqs)
    {
      hide Valid, Up, SameQueues, OnlyMoved, SameProbes, NoneRevived, SameServers, SameTimeouts, CountedAt;
      hide AllSent, AllSentBut, StayChoked, Tried, Picked, GoesOut;
      ghost var us, first, t := servers, reqs, tries;
      SwapToNext(h);
      ghost var a, ss := reqs, servers;
      SameTwice(us, ss, ss, 0);
      NoneUp(us, ss);
      Moves(first, a);
      MovedQueues(first, a);
      StillSent(first, a);
      QueueOf(first, a, h);
      s := SendAgain(h, us, ss);
      if Up(servers) == Up(us) { WentAfter(first[h], a[h], reqs[h], us[a[h].ns.value].choked, socket(t)); }
      QueuesAgain(first, a, a, reqs);
    }

    /** Send the request to the server it is now given to, and count the timeout there. */
    method SendAgain(h: nat, ghost us: map<nat, Server>, ghost ss: map<nat, Server>) returns (ghost s: nat)
      requires Valid() && h in reqs && reqs[h].ns.Some? && servers == ss && SameServers(us, ss)
      modifies this`reqs, this`servers, this`ring, this`good, this`tries
      ensures Valid() && SameQueues(old(reqs), reqs) && SameQueues(old(reqs), old(reqs)) && NoneRevived(us, servers)
      ensures s in servers && servers.Keys == us.Keys && s in us && CountedAt(us, servers, s, maxTimeouts)
      ensures h in reqs && reqs[h].txCount == old(reqs)[h].txCount + One(!reqs[h].transmitMe)
      ensures forall k :: k in reqs && k != h ==> reqs[k] == old(reqs)[k].(ns := reqs[k].ns)
      ensures Up(servers) == Up(us) ==> reqs[h].ns == old(reqs)[h].ns && ring == old(ring)
      ensures old(reqs)[h].ns.value in us
      ensures GoesOut(old(reqs)[h], reqs[h], us[old(reqs)[h].ns.value].choked, socket(old(tries)))
      ensures AllSent(old(reqs)) ==> AllSent(reqs)
    {
      hide Valid, Up, SameQueues, OnlyMoved, SameProbes, NoneRevived, SameServers, SameTimeouts, CountedAt;
      hide AllSent, AllSentBut, StayChoked, Tried, Calm, GoesOut;
      ghost var a, r, t := reqs, ring, tries;
      InflightFacts(h);
      SameChoke(us, ss, reqs[h].ns.value);
      NoneUp(us, ss);
      SentBut(a, h);
      Transmit(h);
      ghost var b, between := reqs, servers;
      StillDown(us, ss, between);
      UpLess(ss, between);
      SameTwice(us, ss, ss, 0);
      KeptServer(a, ss, b, between, r, ring, socket, t, tries, h);
      SameCounts(us, ss, between);
      QueueOf(a, b, h);
      InflightFacts(h);
      s := b[h].ns.value;
      CountTimeout(reqs[h].ns.value);
      MovedQueues(b, reqs);
      Moves(b, reqs);
      StillSent(b, reqs);
      UpLess(between, servers);
      StillDown(us, between, servers);
      CountedFrom(us, between, servers, s, maxTimeouts);
      WentAndMoved(a[h], b[h], reqs[h], us[a[h].ns.value].choked, socket(t));
      QueuesAgain(a, a, b, reqs);
    }

    /** One timeout more for a server; after too many in a row it is down. */
    method CountTimeout(s: nat)
      requires Valid() && s in servers
      modifies this`reqs, this`servers, this`ring, this`good
      ensures Valid() && OnlyMoved(old(reqs), reqs) && NoneRevived(old(servers), servers)
      ensures servers.Keys == old(servers).Keys && CountedAt(old(servers), servers, s, maxTimeouts)
      ensures Up(servers) == Up(old(servers)) ==> reqs == old(reqs) && ring == old(ring)
    {
      hide Valid;
      TouchServer(s, servers[s].(timedOut := servers[s].timedOut + 1));
      if servers[s].timedOut > maxTimeouts {
        TouchServer(s, servers[s].(timedOut := 0));
        NameserverFailed(s);
      }
    }

    lemma QueueOf(a: map<nat, Request>, b: map<nat, Request>, h: nat)
      requires SameQueues(a, b) && h in a
      ensures h in b && a[h].ns.Some? == b[h].ns.Some?
    {
    }

    lemma QueuesAgain(a: map<nat, Request>, b: map<nat, Request>, c: map<nat, Request>, d: map<nat, Request>)
      ensures SameQueues(a, b) && SameQueues(b, c) && SameQueues(c, d) ==> SameQueues(a, d)
      ensures SameQueues(a, a) && SameQueues(b, b)
    {
    }

    /** reply_handle, search domains left aside: the request is finished, except when it is reissued
        after a refusal or left to time out after a server failure. */
    method ReplyHandle(h: nat, reply: Reply)
      requires Valid() && h in reqs && reqs[h].ns.Some?
      modifies this`reqs, this`servers, this`ring, this`good, this`tries, this`heads, this`waiting,
               this`waitingCount, this`inflight
      ensures Valid() && StillInflight(old(reqs), reqs) && servers.Keys == old(servers).Keys
      ensures reqs.Keys <= old(reqs).Keys && old(reqs).Keys - {h} - Probes(old(servers)) <= reqs.Keys
      ensures ProbesFade(old(servers), servers, reqs)
      ensures old(Busy()) ==> Busy()
      ensures AllSent(old(reqs)) ==> AllSent(reqs)
      ensures inflight <= old(inflight) || inflight <= maxInflight
      ensures reply.Refused? && old(reqs)[h].reissueCount < maxReissues ==> RefusedBy(old(reqs), old(servers), h)
      ensures reply.Good? || reply.OtherError? ==>
                h !in reqs && (old(waiting) == [] ==> old(reqs)[h].ns.value in Up(servers))
      ensures reply.ServerFailed? ==> (h in reqs <==> old(reqs)[h].txCount < maxRetransmits)
      ensures reply.Refused? && h in reqs ==>
                old(reqs)[h].reissueCount < maxReissues && reqs[h].txCount == 0 && reqs[h].transmitMe &&
                reqs[h].reissueCount == old(reqs)[h].reissueCount + 1
    {
      hide Valid, Up, CountedAt, StillInflight, ProbesFade, Probes;
      match reply
      case Refused =>
        Refuse(h);
      case ServerFailed =>
        ghost var was := servers;
        ghost var s := Timeout(h);
        NoneFaded(was, servers, reqs);
      case OtherError =>
        Alive(h);
      case Good =>
        Alive(h);
    }

    /** The server that refused is down, and a request that was sent is on another one that is good, if there is one. */
    ghost predicate RefusedBy(before: map<nat, Request>, was: map<nat, Server>, h: nat)
      requires h in before && before[h].ns.Some?
      reads this
    {
      var s := before[h].ns.value;
      && s !in Up(servers)
      && (before[h].txCount > 0 && Up(was) - {s} != {} ==>
            h in reqs && reqs[h].ns.Some? && reqs[h].ns != Some(s) && reqs[h].ns.value in Up(servers))
    }

    /** The server refused to answer, so it is down; try another one, if there is one, but not too often. */
    method Refuse(h: nat)
      requires Valid() && h in reqs && reqs[h].ns.Some?
      modifies this`reqs, this`servers, this`ring, this`good, this`tries, this`heads, this`waiting,
               this`waitingCount, this`inflight
      ensures Valid() && StillInflight(old(reqs), reqs) && servers.Keys == old(servers).Keys
      ensures reqs.Keys <= old(reqs).Keys && old(reqs).Keys - {h} <= reqs.Keys
      ensures ProbesFade(old(servers), servers, reqs)
      ensures old(Busy()) ==> Busy()
      ensures AllSent(old(reqs)) ==> AllSent(reqs)
      ensures inflight <= old(inflight) || inflight <= maxInflight
      ensures old(reqs)[h].reissueCount < maxReissues ==> RefusedBy(old(reqs), old(servers), h)
      ensures h in reqs ==>
                old(reqs)[h].reissueCount < maxReissues && reqs[h].txCount == 0 && reqs[h].transmitMe &&
                reqs[h].reissueCount == old(reqs)[h].reissueCount + 1
    {
      hide Valid, Up, SameProbes, SameTimeouts, ProbesFade, StillInflight, OnlyMoved, SameQueues, AllSent, SameServers;
      hide StayChoked, SameChoked, Picked, Pumped, IsSuffix, Without;
      InflightFacts(h);
      ghost var was, before := servers, reqs;
      SameTwice(was, was, was, 0);
      NoneUp(was, was);
      QueuesInflight(reqs, reqs);
      if reqs[h].reissueCount < maxReissues {
        NameserverFailed(reqs[h].ns.value);
        GoodUp();
        Moves(before, reqs);
        StillSent(before, reqs);
        MovedQueues(before, reqs);
        QueuesInflight(before, reqs);
        ghost var failed, moved := servers, reqs;
        var pointless := Reissue(h);
        StillDown(was, failed, servers);
        QueuesInflight(moved, reqs);
        StillTwice(before, moved, reqs);
        if pointless == 0 {
          NoneFaded(was, servers, reqs);
          return;
        }
      }
      ghost var downs, moves := servers, reqs;
      Finished(h);
      StillDown(was, downs, servers);
      NoneFaded(was, servers, reqs);
      StillTwice(before, moves, reqs);
    }

    /** The server answered, so it is up; the request is done. */
    method Alive(h: nat)
      requires Valid() && h in reqs && reqs[h].ns.Some?
      modifies this`reqs, this`servers, this`ring, this`good, this`tries, this`heads, this`waiting,
               this`waitingCount, this`inflight
      ensures Valid() && StillInflight(old(reqs), reqs) && servers.Keys == old(servers).Keys
      ensures h !in reqs && old(reqs)[h].ns.value in servers
      ensures reqs.Keys <= old(reqs).Keys && old(reqs).Keys - {h} - Probes(old(servers)) <= reqs.Keys
      ensures ProbesFade(old(servers), servers, reqs) && Busy()
      ensures AllSent(old(reqs)) ==> AllSent(reqs)
      ensures inflight <= old(inflight) || inflight <= maxInflight
      ensures old(waiting) == [] ==> old(reqs)[h].ns.value in Up(servers)
    {
      hide Valid, Up, Probes, ProbesFade, SameProbes, NoneRevived, StillInflight, FadedBut;
      InflightFacts(h);
      ghost var a, requests, s := servers, reqs, reqs[h].ns.value;
      AnswerUp(h);
      ghost var c, between := servers, reqs;
      IsUp(servers, s);
      Finished(h);
      FadedAll(a, c, servers, h, between, reqs);
      StillTwice(requests, between, reqs);
    }

    /** A probe that answered is over; its server is up. */
    method AnswerUp(h: nat)
      requires Valid() && h in reqs && reqs[h].ns.Some? && reqs[h].ns.value in servers
      modifies this`reqs, this`servers, this`ring, this`good, this`tries, this`heads, this`waiting,
               this`waitingCount, this`inflight
      ensures Valid() && StillInflight(old(reqs), reqs) && servers.Keys == old(servers).Keys
      ensures h in reqs && servers[old(reqs)[h].ns.value].up
      ensures reqs.Keys <= old(reqs).Keys && old(reqs).Keys - Probes(old(servers)) <= reqs.Keys
      ensures FadedBut(old(servers), servers, reqs, h)
      ensures old(waiting) == [] ==> waiting == []
      ensures AllSent(old(reqs)) ==> AllSent(reqs)
      ensures inflight <= old(inflight) || inflight <= maxInflight
    {
      hide Valid, Up, SameServers, SameProbes;
      var s := reqs[h].ns.value;
      if servers[s].probe == Some(h) {
        TouchServer(s, servers[s].(probe := None));
      }
      ghost var b := servers;
      if b[s].probe.Some? { assert b[s].probe.value in Probes(old(servers)); }
      NameserverUp(s);
    }

    /** evdns_nameserver_add_impl_: a new server, behind the head of the ring. */
    method AddServer(s: nat)
      requires Valid() && s !in servers
      modifies this`servers, this`ring, this`good
      ensures Valid() && servers.Keys == old(servers).Keys + {s} && servers[s].up && good == old(good) + 1
      ensures servers == old(servers)[s := Server(true, 0, None, false, 0, 0)]
      ensures ring == if old(ring) == [] then [s] else [old(ring)[0], s] + old(ring)[1..]
    {
      hide Lists, Ids, Total, On, Bucket, Counts, Ring, Up;
      Joined(reqs, servers, ring, s, Server(true, 0, None, false, 0, 0));
      servers := servers[s := Server(true, 0, None, false, 0, 0)];
      ring := if ring == [] then [s] else [ring[0], s] + ring[1..];
      good := good + 1;
    }

    /** evdns_base_clear_nameservers_and_suspend, when nothing waits or no probe is outstanding: the probes are
        cancelled, all other requests wait, those that were inflight before the others. */
    method ClearServers()
      requires Valid() && (waiting == [] || Probes(servers) == {})
      modifies this
      ensures Valid() && reqs.Keys == old(reqs).Keys - Probes(old(servers)) && IsSuffix(old(waiting), waiting) &&
              maxInflight == old(maxInflight)
      ensures servers == map[]
      ensures old(servers) != map[] ==>
                good == 0 && inflight == 0 && forall h :: h in reqs ==> reqs[h].ns == None
      ensures old(servers) == map[] ==> reqs == old(reqs) && heads == old(heads)
      ensures old(servers) == map[] ==> waiting == old(waiting) && inflight == old(inflight)
      ensures old(servers) != map[] ==> Waits(old(reqs), reqs)
    {
      hide Lists, Ids, Total, On, Bucket, Counts, Up, Probes, Waits;
      if ring == [] {
        NoServers(servers, ring);
        NoProbes(servers);
        return;
      }
      assert ring[0] in servers;
      CancelProbes();
      ghost var all, lists, cleared := reqs.Keys, heads, servers;
      OnItsWayIs(old(reqs), reqs);
      for i := 0 to |heads|
        invariant Lists(reqs, heads, waiting) && Ids(reqs) && |heads| == |lists| && reqs.Keys == all
        invariant forall b :: 0 <= b < i ==> heads[b] == []
        invariant forall b :: i <= b < |heads| ==> heads[b] == lists[b]
        invariant waitingCount == |waiting| && IsSuffix(old(waiting), waiting)
        invariant servers == cleared && maxInflight == old(maxInflight) && OnItsWay(old(reqs), reqs)
      {
        SuspendBucket(i, old(reqs));
      }
      AllSuspended(reqs, heads, waiting);
      NowWaits(old(reqs), reqs);
      TotalEmpty(heads);
      servers := map[];
      ring := [];
      good := 0;
      inflight := 0;
      Nothing(reqs, servers);
    }

    /** Every probe that is outstanding is cancelled; nothing waits that would be sent instead. */
    method CancelProbes()
      requires Valid() && (waiting == [] || Probes(servers) == {})
      modifies this`reqs, this`servers, this`ring, this`good, this`tries, this`heads, this`waiting,
               this`waitingCount, this`inflight
      ensures Valid() && waiting == old(waiting) && servers.Keys == old(servers).Keys
      ensures reqs == old(reqs) - Probes(old(servers)) && Probes(servers) == {}
    {
      hide Valid, Up, Probes, ProbesAt, NoDup, ProbesOver;
      var all := ring;
      ghost var gone: set<nat> := {};
      RingServers();
      ProbesAtNone(servers, all[..0]);
      NoneOver(servers, all);
      for i := 0 to |all|
        invariant Valid() && waiting == old(waiting) && ring == all && servers.Keys == old(servers).Keys
        invariant forall j :: 0 <= j < |all| ==> all[j] in servers
        invariant ProbesOver(old(servers), servers, all, i)
        invariant gone == ProbesAt(old(servers), all[..i]) && reqs == old(reqs) - gone
        modifies this`reqs, this`servers, this`ring, this`good, this`tries, this`heads, this`waiting, this`waitingCount,
                 this`inflight
      {
        OneProbe(old(servers), all, i);
        NextProbe(old(servers), servers, all, i);
        gone := gone + if servers[all[i]].probe.Some? then {servers[all[i]].probe.value} else {};
        ghost var ss := servers;
        CancelProbe(all[i]);
        ProbeGone(old(servers), ss, servers, all, i);
      }
      RingServers();
      AllProbes(old(servers), servers, all);
    }

    method CancelProbe(s: nat)
      requires Valid() && s in servers && (servers[s].probe.Some? ==> waiting == [])
      modifies this`reqs, this`servers, this`ring, this`good, this`tries, this`heads, this`waiting,
               this`waitingCount, this`inflight
      ensures Valid() && waiting == old(waiting) && ring == old(ring) && servers.Keys == old(servers).Keys
      ensures servers[s].probe == None
      ensures forall k :: k in servers && k != s ==> servers[k].probe == old(servers)[k].probe
      ensures reqs == old(reqs) - if old(servers)[s].probe.Some? then {old(servers)[s].probe.value} else {}
    {
      hide Valid, Up;
      if servers[s].probe.Some? {
        Cancel(servers[s].probe.value);
        TouchServer(s, servers[s].(probe := None));
      }
    }

    lemma RingServers()
      requires Valid()
      ensures NoDup(ring) && (forall s :: s in ring <==> s in servers)
      ensures forall j :: 0 <= j < |ring| ==> ring[j] in ring
    {
    }

    /** Move one bucket to the front of the waiting list, request by request. */
    method SuspendBucket(i: nat, ghost before: map<nat, Request>)
      requires Lists(reqs, heads, waiting) && Ids(reqs) && waitingCount == |waiting| && i < |heads|
      requires OnItsWay(before, reqs)
      modifies this`reqs, this`heads, this`waiting, this`waitingCount
      ensures OnItsWay(before, reqs)
      ensures Lists(reqs, heads, waiting) && Ids(reqs) && reqs.Keys == old(reqs).Keys
      ensures heads == old(heads)[i := []] && waitingCount == |waiting| && IsSuffix(old(waiting), waiting)
    {
      hide Lists, Ids, Total, Without, Bucket;
      while heads[i] != []
        invariant Lists(reqs, heads, waiting) && Ids(reqs) && reqs.Keys == old(reqs).Keys && OnItsWay(before, reqs)
        invariant |heads| == |old(heads)| && heads == old(heads)[i := heads[i]]
        invariant waitingCount == |waiting| && IsSuffix(old(waiting), waiting)
        decreases |heads[i]|
      {
        var h := heads[i][0];
        ghost var was := reqs;
        FirstOf(reqs, heads, waiting, i);
        RemoveInflight(reqs, heads, waiting, h);
        AddWaiting(reqs - {h}, heads[i := Without(heads[i], h)], waiting, h, Request(None, 0, 0, 0, false));
        assert (reqs - {h})[h := Request(None, 0, 0, 0, false)] == reqs[h := Request(None, 0, 0, 0, false)];
        IdsKeep(reqs, h, Request(None, 0, 0, 0, false));
        reqs := reqs[h := Request(None, 0, 0, 0, false)];
        waitingCount := waitingCount + 1;
        waiting := [h] + waiting;
        heads := heads[i := heads[i][1..]];
      }
    }

    /** evdns_base_set_max_requests_inflight: spread the inflight requests over the new buckets. */
    method SetMaxInflight(max: int)
      requires Valid() && max <= NO_ID
      modifies this`heads, this`maxInflight
      ensures Valid() && maxInflight == if max < 1 then 1 else max
      ensures |heads| == (maxInflight + 4) / 5
    {
      hide Lists, Ids, Total, On, Bucket, Counts, Up, Ring, Without, Entries;
      var m := if max < 1 then 1 else max;
      var n := (m + 4) / 5;
      var newHeads: seq<seq<nat>> := seq(n, _ => []);
      TotalEmpty(newHeads);
      var oldHeads := heads;
      NoneMoved(reqs, oldHeads, newHeads, waiting);
      for i := 0 to |oldHeads|
        invariant heads == old(heads) && |oldHeads| == |heads| && |newHeads| == n
        invariant Moving(reqs, oldHeads, newHeads, waiting) && Total(oldHeads) + Total(newHeads) == Total(heads)
        invariant forall b :: 0 <= b < i ==> oldHeads[b] == []
      {
        while oldHeads[i] != []
          invariant heads == old(heads) && |oldHeads| == |heads| && |newHeads| == n
          invariant Moving(reqs, oldHeads, newHeads, waiting) && Total(oldHeads) + Total(newHeads) == Total(heads)
          invariant forall b :: 0 <= b < i ==> oldHeads[b] == []
          decreases |oldHeads[i]|
        {
          var h := oldHeads[i][0];
          MoveOne(reqs, oldHeads, newHeads, waiting, i);
          var k := Bucket(reqs[h].transId, n);
          oldHeads := oldHeads[i := oldHeads[i][1..]];
          newHeads := newHeads[k := newHeads[k] + [h]];
        }
      }
      AllMoved(reqs, oldHeads, newHeads, waiting);
      TotalEmpty(oldHeads);
      heads := newHeads;
      maxInflight := m;
    }

    lemma InBucket(i: nat, j: nat)
      requires Valid() && i < |heads| && j < |heads[i]|
      ensures heads[i][j] in reqs && reqs[heads[i][j]].ns.Some?
    {
      assert heads[i][j] in heads[i];
    }

    lemma AllInBuckets()
      requires Valid()
      ensures forall h :: h in reqs && reqs[h].ns.Some? ==> exists i :: 0 <= i < |heads| && h in heads[i]
    {
    }
  }

  lemma Joined(reqs: map<nat, Request>, servers: map<nat, Server>, ring: seq<nat>, s: nat, v: Server)
    requires Counts(reqs, servers) && Ring(servers, ring) && s !in servers && v.up && v.inflight == 0
    ensures Counts(reqs, servers[s := v]) && |Up(servers[s := v])| == |Up(servers)| + 1
    ensures Ring(servers[s := v], if ring == [] then [s] else [ring[0], s] + ring[1..])
  {
    hide Ring;
    assert On(reqs, s) == {};
    assert Up(servers[s := v]) == Up(servers) + {s};
    JoinedRing(servers, ring, s, v);
  }

  lemma JoinedRing(servers: map<nat, Server>, ring: seq<nat>, s: nat, v: Server)
    requires Ring(servers, ring) && s !in servers
    ensures Ring(servers[s := v], if ring == [] then [s] else [ring[0], s] + ring[1..])
  {
    assert s !in ring;
    if ring != [] {
      assert ring == [ring[0]] + ring[1..];
      var after := [ring[0], s] + ring[1..];
      assert forall i :: 2 <= i < |after| ==> after[i] == ring[i - 1];
    }
  }

  lemma FirstOf(reqs: map<nat, Request>, heads: seq<seq<nat>>, waiting: seq<nat>, i: nat)
    requires Lists(reqs, heads, waiting) && i < |heads| && heads[i] != []
    ensures var h := heads[i][0];
            && h in reqs && reqs[h].ns.Some? && Bucket(reqs[h].transId, |heads|) == i &&
               Without(heads[i], h) == heads[i][1..]
  {
    assert heads[i][0] in heads[i];
    WithoutFirst(heads[i]);
  }

  lemma AllSuspended(reqs: map<nat, Request>, heads: seq<seq<nat>>, waiting: seq<nat>)
    requires Lists(reqs, heads, waiting) && forall i :: 0 <= i < |heads| ==> heads[i] == []
    ensures forall h :: h in reqs ==> reqs[h].ns == None
  {
  }

  lemma Nothing(reqs: map<nat, Request>, servers: map<nat, Server>)
    requires servers == map[] && forall h :: h in reqs ==> reqs[h].ns == None
    ensures Counts(reqs, servers) && Up(servers) == {}
  {
  }

  /** The lists hold inflight requests, each in the bucket of its id, once. */
  ghost predicate InTable(reqs: map<nat, Request>, t: seq<seq<nat>>) {
    && |t| > 0
    && (forall i, h :: 0 <= i < |t| && h in t[i] ==> h in reqs && reqs[h].ns.Some? && Bucket(reqs[h].transId, |t|) == i)
    && (forall i :: 0 <= i < |t| ==> NoDup(t[i]))
  }

  /** Halfway between two tables: every inflight request is in exactly one of them. */
  ghost predicate Moving(reqs: map<nat, Request>, a: seq<seq<nat>>, b: seq<seq<nat>>, waiting: seq<nat>) {
    && InTable(reqs, a) && InTable(reqs, b)
    && (forall h :: h in waiting ==> h in reqs && reqs[h].ns == None)
    && (forall h :: h in reqs ==>
          if reqs[h].ns.Some? then (h in a[Bucket(reqs[h].transId, |a|)]) != (h in b[Bucket(reqs[h].transId, |b|)])
              else h in waiting)
    && NoDup(waiting)
  }

  lemma NoneMoved(reqs: map<nat, Request>, a: seq<seq<nat>>, b: seq<seq<nat>>, waiting: seq<nat>)
    requires Lists(reqs, a, waiting) && |b| > 0 && forall i :: 0 <= i < |b| ==> b[i] == []
    ensures Moving(reqs, a, b, waiting)
  {
  }

  lemma AllMoved(reqs: map<nat, Request>, a: seq<seq<nat>>, b: seq<seq<nat>>, waiting: seq<nat>)
    requires Moving(reqs, a, b, waiting) && forall i :: 0 <= i < |a| ==> a[i] == []
    ensures Lists(reqs, b, waiting)
  {
  }

  lemma MoveOne(reqs: map<nat, Request>, a: seq<seq<nat>>, b: seq<seq<nat>>, waiting: seq<nat>, i: nat)
    requires Moving(reqs, a, b, waiting) && i < |a| && a[i] != []
    ensures var h := a[i][0];
            && h in reqs
            && var k := Bucket(reqs[h].transId, |b|);
            && Moving(reqs, a[i := a[i][1..]], b[k := b[k] + [h]], waiting)
            && Total(a[i := a[i][1..]]) == Total(a) - 1 && Total(b[k := b[k] + [h]]) == Total(b) + 1
  {
    hide Bucket, Total, Moving;
    FirstMoving(reqs, a, b, waiting, i);
    MoveKeeps(reqs, a, b, waiting, i);
    var h := a[i][0];
    var k := Bucket(reqs[h].transId, |b|);
    TotalUpdate(a, i, a[i][1..]);
    TotalUpdate(b, k, b[k] + [h]);
  }

  lemma FirstMoving(reqs: map<nat, Request>, a: seq<seq<nat>>, b: seq<seq<nat>>, waiting: seq<nat>, i: nat)
    requires Moving(reqs, a, b, waiting) && i < |a| && a[i] != []
    ensures |b| > 0 && a[i][0] in reqs
  {
    assert a[i][0] in a[i];
  }

  lemma MoveKeeps(reqs: map<nat, Request>, a: seq<seq<nat>>, b: seq<seq<nat>>, waiting: seq<nat>, i: nat)
    requires Moving(reqs, a, b, waiting) && i < |a| && a[i] != [] && a[i][0] in reqs
    ensures |b| > 0
    ensures var h := a[i][0]; var k := Bucket(reqs[h].transId, |b|);
            Moving(reqs, a[i := a[i][1..]], b[k := b[k] + [h]], waiting)
  {
    hide Bucket, NoDup;
    var h := a[i][0];
    var k := Bucket(reqs[h].transId, |b|);
    assert h in a[i] && h !in b[k];
    FirstOnce(a[i]);
    TableDrop(reqs, a, i);
    TableAdd(reqs, b, k, h);
    assert forall x :: x in a[i][1..] <==> x in a[i] && x != h;
  }

  lemma FirstOnce(l: seq<nat>)
    requires NoDup(l) && l != []
    ensures NoDup(l[1..]) && forall x :: x in l[1..] <==> x in l && x != l[0]
  {
    WithoutFirst(l);
  }

  lemma TableDrop(reqs: map<nat, Request>, t: seq<seq<nat>>, i: nat)
    requires InTable(reqs, t) && i < |t| && t[i] != []
    ensures InTable(reqs, t[i := t[i][1..]])
  {
    hide Bucket;
    FirstOnce(t[i]);
  }

  lemma TableAdd(reqs: map<nat, Request>, t: seq<seq<nat>>, k: nat, h: nat)
    requires InTable(reqs, t) && h in reqs && reqs[h].ns.Some? && k == Bucket(reqs[h].transId, |t|) && h !in t[k]
    ensures InTable(reqs, t[k := t[k] + [h]])
  {
    hide Bucket;
  }

  lemma Counted(reqs: map<nat, Request>, servers: map<nat, Server>, h: nat)
    requires Counts(reqs, servers) && h in reqs && reqs[h].ns.Some?
    ensures reqs[h].ns.value in servers && servers[reqs[h].ns.value].inflight > 0
  {
    assert h in On(reqs, reqs[h].ns.value);
  }

  lemma CountsSame(reqs: map<nat, Request>, servers: map<nat, Server>, h: nat, r: Request)
    requires Counts(reqs, servers) && h in reqs && r.ns == reqs[h].ns
    ensures Counts(reqs[h := r], servers)
  {
    hide On;
    forall s | s in servers
      ensures |On(reqs[h := r], s)| == servers[s].inflight
    {
      OnPut(reqs, h, r, s);
    }
  }

  lemma SameBumped(servers: map<nat, Server>, s: Option<nat>, d: int)
    ensures SameServers(servers, Bump(servers, s, d))
  {
  }

  lemma BumpOne(servers: map<nat, Server>, s: nat, d: int)
    requires s in servers
    ensures Bump(Bump(servers, None, 0 - 1), Some(s),
            d) == servers[s := servers[s].(inflight := servers[s].inflight + d)]
    ensures Bump(servers, Some(s), d) == servers[s := servers[s].(inflight := servers[s].inflight + d)]
  {
  }

  /** The inflight requests of a that are still there are inflight under the same id. */
  ghost predicate StillInflight(a: map<nat, Request>, b: map<nat, Request>) {
    forall h :: h in a && h in b && a[h].ns.Some? ==> b[h].ns.Some? && b[h].transId == a[h].transId
  }

  ghost predicate IsSuffix(a: seq<nat>, b: seq<nat>) {
    |a| <= |b| && a == b[|b| - |a|..]
  }

  /** The same servers with the same probes, and none that was down is up. */
  ghost predicate NoneRevived(a: map<nat, Server>, b: map<nat, Server>) {
    SameProbes(a, b) && Up(b) <= Up(a)
  }

  /** Probes that are not outstanding any more are no requests either. */
  ghost predicate ProbesFade(a: map<nat, Server>, b: map<nat, Server>, reqs: map<nat, Request>) {
    a.Keys == b.Keys &&
    forall s :: s in a && b[s].probe != a[s].probe ==> b[s].probe == None && a[s].probe.value !in reqs
  }

  lemma IsUp(servers: map<nat, Server>, s: nat)
    ensures s in Up(servers) <==> s in servers && servers[s].up
  {
  }

  /** The same, except that a probe h may still be a request. */
  ghost predicate FadedBut(a: map<nat, Server>, b: map<nat, Server>, reqs: map<nat, Request>, h: nat) {
    a.Keys == b.Keys &&
    forall s :: s in a && b[s].probe != a[s].probe ==>
      b[s].probe == None && (a[s].probe.value !in reqs || a[s].probe.value == h)
  }

  lemma FadedAll(a: map<nat, Server>, b: map<nat, Server>, c: map<nat, Server>, h: nat, between: map<nat, Request>,
                 last: map<nat, Request>)
    requires FadedBut(a, b, between, h) && NoneRevived(b, c) && last.Keys == between.Keys - {h}
    ensures ProbesFade(a, c, last) && a.Keys == c.Keys
  {
    hide Up;
  }

  lemma UpLess(a: map<nat, Server>, b: map<nat, Server>)
    requires NoneRevived(a, b)
    ensures a.Keys == b.Keys && Up(b) <= Up(a)
  {
  }

  /** A request stays with its server unless a server failed. */
  lemma KeptServer(a: map<nat, Request>, us: map<nat, Server>, b: map<nat, Request>, ss: map<nat, Server>,
                   was: seq<nat>, ring: seq<nat>, socket: nat -> Outcome, t: nat, n: nat, h: nat)
    requires h in a && h in b && Calm(a, us, was, b, ss, ring, socket, t, n)
    ensures Up(ss) == Up(us) ==> b[h].ns == a[h].ns && ring == was
  {
    hide Up;
  }

  lemma SentBut(a: map<nat, Request>, h: nat)
    ensures AllSent(a) ==> AllSentBut(a, h)
  {
  }

  /** Requests that only move are sent as before. */
  lemma StillSent(a: map<nat, Request>, b: map<nat, Request>)
    requires a.Keys == b.Keys && forall k :: k in a ==> b[k] == a[k].(ns := b[k].ns) && a[k].ns.Some? == b[k].ns.Some?
    ensures AllSent(a) ==> AllSent(b)
  {
  }

  lemma Dropped(a: map<nat, Request>, b: map<nat, Request>, h: nat)
    requires b == a - {h}
    ensures StillInflight(a, b) && (AllSent(a) ==> AllSent(b)) && b.Keys <= a.Keys
  {
  }

  /** Only one request is not sent yet. */
  lemma Promoted(a: map<nat, Request>, b: map<nat, Request>, h: nat)
    requires a.Keys == b.Keys && h in a && a[h].ns == None && forall k :: k in b && k != h ==> b[k] == a[k]
    ensures StillInflight(a, b) && (AllSent(a) ==> AllSentBut(b, h))
  {
  }

  lemma QueuesInflight(a: map<nat, Request>, b: map<nat, Request>)
    ensures SameQueues(a, b) ==> StillInflight(a, b) && a.Keys == b.Keys
    ensures SameQueues(a, a)
  {
  }

  lemma StillTwice(a: map<nat, Request>, b: map<nat, Request>, c: map<nat, Request>)
    requires StillInflight(a, b) && StillInflight(b, c) && b.Keys <= a.Keys && c.Keys <= b.Keys
    ensures StillInflight(a, c)
  {
  }

  lemma NoneFaded(a: map<nat, Server>, b: map<nat, Server>, reqs: map<nat, Request>)
    requires NoneRevived(a, b)
    ensures ProbesFade(a, b, reqs)
  {
  }

  /** Requests that are left wait as if they were new, or still as they were. */
  ghost predicate Waits(a: map<nat, Request>, b: map<nat, Request>) {
    forall h :: h in b ==> h in a && b[h] == if a[h].ns.Some? then Request(None, 0, 0, 0, false) else a[h]
  }

  ghost predicate OnItsWay(a: map<nat, Request>, b: map<nat, Request>) {
    forall h :: h in b ==> h in a && (b[h] == a[h] || (a[h].ns.Some? && b[h] == Request(None, 0, 0, 0, false)))
  }

  lemma OnItsWayIs(a: map<nat, Request>, b: map<nat, Request>)
    requires forall h :: h in b ==> h in a && b[h] == a[h]
    ensures OnItsWay(a, b)
  {
  }

  lemma NowWaits(a: map<nat, Request>, b: map<nat, Request>)
    requires OnItsWay(a, b) && forall h :: h in b ==> b[h].ns == None
    ensures Waits(a, b)
  {
  }

  ghost predicate SameProbes(a: map<nat, Server>, b: map<nat, Server>) {
    a.Keys == b.Keys && forall s :: s in a ==> b[s].probe == a[s].probe
  }

  /** The probes that are outstanding. */
  ghost function Probes(servers: map<nat, Server>): set<nat> {
    set s | s in servers && servers[s].probe.Some? :: servers[s].probe.value
  }

  ghost function ProbesAt(servers: map<nat, Server>, ss: seq<nat>): set<nat>
    requires forall s :: s in ss ==> s in servers
  {
    set s | s in ss && servers[s].probe.Some? :: servers[s].probe.value
  }

  lemma NoProbes(servers: map<nat, Server>)
    requires servers == map[]
    ensures Probes(servers) == {}
  {
  }

  lemma ProbesAtNone(servers: map<nat, Server>, ss: seq<nat>)
    requires ss == []
    ensures ProbesAt(servers, ss) == {}
  {
  }

  lemma OneProbe(servers: map<nat, Server>, ss: seq<nat>, i: nat)
    requires i < |ss| && forall s :: s in ss ==> s in servers
    ensures ProbesAt(servers, ss[..i + 1]) ==
            ProbesAt(servers, ss[..i]) + if servers[ss[i]].probe.Some? then {servers[ss[i]].probe.value} else {}
    ensures servers[ss[i]].probe.Some? ==> Probes(servers) != {}
  {
    assert ss[..i + 1] == ss[..i] + [ss[i]];
    if servers[ss[i]].probe.Some? { assert servers[ss[i]].probe.value in Probes(servers); }
  }

  /** Of the servers in the list the first i have no probe any more, and the others are as they were. */
  ghost predicate ProbesOver(a: map<nat, Server>, b: map<nat, Server>, all: seq<nat>, i: nat) {
    forall j :: 0 <= j < |all| && all[j] in a && all[j] in b ==>
      b[all[j]].probe == if j < i then None else a[all[j]].probe
  }

  lemma NoneOver(a: map<nat, Server>, all: seq<nat>)
    ensures ProbesOver(a, a, all, 0)
  {
  }

  lemma NextProbe(a: map<nat, Server>, b: map<nat, Server>, all: seq<nat>, i: nat)
    requires ProbesOver(a, b, all, i) && i < |all| && all[i] in a && all[i] in b
    ensures b[all[i]].probe == a[all[i]].probe
  {
  }

  lemma ProbeGone(a: map<nat, Server>, b: map<nat, Server>, c: map<nat, Server>, all: seq<nat>, i: nat)
    requires ProbesOver(a, b, all, i) && i < |all| && NoDup(all) && b.Keys == c.Keys
    requires all[i] in c && c[all[i]].probe == None
    requires forall k :: k in c && k != all[i] ==> c[k].probe == b[k].probe
    ensures ProbesOver(a, c, all, i + 1)
  {
  }

  lemma AllProbes(before: map<nat, Server>, after: map<nat, Server>, ss: seq<nat>)
    requires before.Keys == after.Keys && forall s :: s in ss <==> s in before
    requires ProbesOver(before, after, ss, |ss|)
    ensures ProbesAt(before, ss[..|ss|]) == Probes(before) && Probes(after) == {}
  {
    assert ss[..|ss|] == ss;
  }

  lemma SameTwice(a: map<nat, Server>, b: map<nat, Server>, c: map<nat, Server>, s: nat)
    ensures SameServers(a, a)
    ensures SameServers(a, b) && SameServers(b, c) ==>
              SameServers(a, c) && (s in a && s !in Up(a) ==> s in c && s !in Up(c))
    ensures SameServers(a, b) ==> Up(a) == Up(b) && a.Keys == b.Keys
    ensures SameServers(b, c) ==> Up(b) == Up(c) && b.Keys == c.Keys
  {
  }

  lemma Moves(a: map<nat, Request>, b: map<nat, Request>)
    requires OnlyMoved(a, b)
    ensures a.Keys == b.Keys && forall k :: k in a ==> b[k] == a[k].(ns := b[k].ns) && a[k].ns.Some? == b[k].ns.Some?
  {
  }

  lemma SameCounts(a: map<nat, Server>, b: map<nat, Server>, c: map<nat, Server>)
    requires SameServers(a, b) && SameTimeouts(b, c)
    ensures SameTimeouts(a, c) && a.Keys == c.Keys
  {
  }

  lemma CountedFrom(a: map<nat, Server>, b: map<nat, Server>, c: map<nat, Server>, s: nat, max: nat)
    requires SameTimeouts(a, b) && s in b && b.Keys == c.Keys && CountedAt(b, c, s, max)
    ensures s in a && a.Keys == c.Keys && CountedAt(a, c, s, max)
  {
  }

  /** The request is not marked, or its server is choked. */
  ghost predicate Handled(reqs: map<nat, Request>, servers: map<nat, Server>, h: nat) {
    h in reqs && reqs[h].ns.Some? && reqs[h].transmitMe ==> ChokedAt(reqs, servers, h)
  }

  /** Unless a server failed, all requests in the first lists, and in the next one as far as the j-th, were handled. */
  ghost predicate ListsHandled(reqs: map<nat, Request>, servers: map<nat, Server>, lists: seq<seq<nat>>, i: nat, j: nat,
                               before: set<nat>) {
    Up(servers) == before ==>
      && (forall b, k :: 0 <= b < |lists| && 0 <= k < |lists[b]| && (b < i || (b == i && k < j)) ==>
                           Handled(reqs, servers, lists[b][k]))
  }

  lemma NoLists(reqs: map<nat, Request>, servers: map<nat, Server>, lists: seq<seq<nat>>, before: set<nat>)
    ensures ListsHandled(reqs, servers, lists, 0, 0, before)
  {
  }

  lemma NextList(reqs: map<nat, Request>, servers: map<nat, Server>, lists: seq<seq<nat>>, i: nat, before: set<nat>)
    requires i < |lists| && ListsHandled(reqs, servers, lists, i, |lists[i]|, before)
    ensures ListsHandled(reqs, servers, lists, i + 1, 0, before)
  {
    hide Handled;
  }

  lemma OneHandled(reqs: map<nat, Request>, servers: map<nat, Server>, lists: seq<seq<nat>>, i: nat, j: nat,
                   before: set<nat>)
    requires i < |lists| && j < |lists[i]| && ListsHandled(reqs, servers, lists, i, j, before)
    requires lists[i][j] in reqs ==> !reqs[lists[i][j]].transmitMe
    ensures ListsHandled(reqs, servers, lists, i, j + 1, before)
  {
  }

  /** What was handled before a transmission is so afterwards, unless it made a server fail. */
  lemma StillHandled(b: map<nat, Request>, ss: map<nat, Server>, c: map<nat, Request>, ts: map<nat, Server>,
                     lists: seq<seq<nat>>, i: nat, j: nat, before: set<nat>)
    requires i < |lists| && j < |lists[i]| && ListsHandled(b, ss, lists, i, j, before)
    requires var h := lists[i][j];
             && h in b && h in c && b[h].ns.Some? && StayChoked(ss, ts) && Up(ts) <= Up(ss) <= before
             && exists choked, r :: Tried(b, ss, c, ts, h, choked, r)
    ensures ListsHandled(c, ts, lists, i, j + 1, before)
  {
    hide Up;
  }

  lemma AllHandled(reqs: map<nat, Request>, servers: map<nat, Server>, lists: seq<seq<nat>>, before: set<nat>)
    requires ListsHandled(reqs, servers, lists, |lists|, 0, before)
    requires forall h :: h in reqs && reqs[h].ns.Some? ==> exists i :: 0 <= i < |lists| && h in lists[i]
    ensures Up(servers) == before ==> forall h :: h in reqs && reqs[h].ns.Some? ==> Handled(reqs, servers, h)
  {
    hide Handled, Up;
    if Up(servers) == before {
      forall h | h in reqs && reqs[h].ns.Some?
        ensures Handled(reqs, servers, h)
      {
        var i :| 0 <= i < |lists| && h in lists[i];
        var k :| 0 <= k < |lists[i]| && lists[i][k] == h;
      }
    }
  }

  /** What transmissions do to all requests and servers. */
  ghost predicate Progress(a: map<nat, Request>, us: map<nat, Server>, b: map<nat, Request>, ss: map<nat, Server>) {
    SameQueues(a, b) && NoneRevived(us, ss) && StayChoked(us, ss) && SentOnce(a, b) && (AllSent(a) ==> AllSent(b))
  }

  lemma ProgressNone(a: map<nat, Request>, us: map<nat, Server>)
    ensures Progress(a, us, a, us)
  {
  }

  lemma ProgressMade(a: map<nat, Request>, us: map<nat, Server>, b: map<nat, Request>, ss: map<nat, Server>)
    requires Progress(a, us, b, ss)
    ensures SameQueues(a, b) && NoneRevived(us, ss) && StayChoked(us, ss) && SentOnce(a, b)
    ensures AllSent(a) ==> AllSent(b)
  {
  }

  lemma SameRequests(a: map<nat, Request>, us: map<nat, Server>, b: map<nat, Request>, ss: map<nat, Server>)
    requires Progress(a, us, b, ss)
    ensures a.Keys == b.Keys
  {
  }

  lemma ProgressStep(a: map<nat, Request>, us: map<nat, Server>, b: map<nat, Request>, ss: map<nat, Server>,
                     c: map<nat, Request>, ts: map<nat, Server>, h: nat)
    requires Progress(a, us, b, ss) && SameQueues(b, c) && NoneRevived(ss, ts) && StayChoked(ss, ts)
    requires h in b && h in c && b[h].transmitMe && c[h].txCount == b[h].txCount + One(!c[h].transmitMe)
    requires forall k :: k in c && k != h ==> c[k] == b[k].(ns := c[k].ns)
    requires AllSentBut(b, h) ==> AllSent(c)
    ensures Progress(a, us, c, ts) && Up(ts) <= Up(ss) <= Up(us)
  {
    hide Up;
  }

  lemma NoneUp(a: map<nat, Server>, b: map<nat, Server>)
    requires SameServers(a, b)
    ensures NoneRevived(a, b)
  {
  }

  lemma StillDown(a: map<nat, Server>, b: map<nat, Server>, c: map<nat, Server>)
    requires NoneRevived(a, b) && NoneRevived(b, c)
    ensures NoneRevived(a, c)
  {
  }

  /** One timeout was counted for the server s; where there were too many it is down, and counting starts anew. */
  ghost predicate CountedAt(a: map<nat, Server>, b: map<nat, Server>, s: nat, max: nat)
    requires s in a && a.Keys == b.Keys
  {
    && b[s].timedOut == (if a[s].timedOut >= max then 0 else a[s].timedOut + 1)
    && (a[s].timedOut >= max ==> s !in Up(b))
    && forall k :: k in a && k != s ==> b[k].timedOut == a[k].timedOut
  }

  /** No timeout was counted. */
  ghost predicate SameTimeouts(a: map<nat, Server>, b: map<nat, Server>) {
    a.Keys == b.Keys && forall s :: s in a ==> b[s].timedOut == a[s].timedOut
  }

  /** The same servers but for the requests they count. */
  ghost predicate SameServers(a: map<nat, Server>, b: map<nat, Server>) {
    && a.Keys == b.Keys && (forall s :: s in a ==> b[s] == a[s].(inflight := b[s].inflight))
    && SameProbes(a, b) && SameTimeouts(a, b) && SameChoked(a, b) && Up(a) == Up(b)
  }

  lemma RingKeys(a: map<nat, Server>, b: map<nat, Server>, ring: seq<nat>)
    requires Ring(a, ring) && a.Keys == b.Keys
    ensures Ring(b, ring)
  {
    assert forall s :: s in a <==> s in b;
  }

  lemma BumpsServers(servers: map<nat, Server>, a: Option<nat>, b: Option<nat>)
    requires a.Some? && b.Some? && a != b && a.value in servers && b.value in servers
    ensures var less := servers[a.value := servers[a.value].(inflight := servers[a.value].inflight - 1)];
            Bump(Bump(servers, a, 0 - 1), b,
                1) == less[b.value := less[b.value].(inflight := less[b.value].inflight + 1)]
  {
  }

  /** The ring as seen from its k-th entry on. */
  ghost function From(ring: seq<nat>, k: nat): seq<nat>
    requires k <= |ring|
  {
    ring[k..] + ring[..k]
  }

  lemma FromStart(ring: seq<nat>)
    ensures From(ring, 0) == ring
  {
  }

  lemma NextFrom(ring: seq<nat>, k: nat)
    requires k < |ring|
    ensures |From(ring, k)| == |ring| && From(ring, k)[0] == ring[k]
    ensures |From(ring, k + 1)| == |ring| && From(ring, k)[1..] + [From(ring, k)[0]] == From(ring, k + 1)
    ensures k + 1 == |ring| ==> From(ring, k + 1) == ring
  {
  }

  ghost predicate NoneUpTo(servers: map<nat, Server>, ring: seq<nat>, k: nat) {
    k <= |ring| && forall j :: 0 <= j < k ==> ring[j] in servers && !servers[ring[j]].up
  }

  ghost predicate FirstUp(servers: map<nat, Server>, ring: seq<nat>, k: nat) {
    k < |ring| && NoneUpTo(servers, ring, k) && ring[k] in servers && servers[ring[k]].up
  }

  /** The first good server of the ring, or the next one if none is good; the one behind it is next. */
  ghost predicate Picked(servers: map<nat, Server>, was: seq<nat>, ring: seq<nat>, s: nat) {
    if Up(servers) == {} then was != [] && ring == From(was, 1) && s == ring[0]
        else exists k: nat :: FirstUp(servers, was, k) && s == was[k] && ring == From(was, k + 1)
  }

  lemma InRing(servers: map<nat, Server>, ring: seq<nat>)
    requires Ring(servers, ring)
    ensures forall j :: 0 <= j < |ring| ==> ring[j] in servers
  {
    assert forall j :: 0 <= j < |ring| ==> ring[j] in ring;
  }

  /** Back at the start: all servers were seen, and none was good. */
  lemma AllAround(servers: map<nat, Server>, ring: seq<nat>, k: nat)
    requires Ring(servers, ring) && 0 < k && NoneUpTo(servers, ring, k) && From(ring, k)[0] == ring[0]
    ensures |Up(servers)| == 0
  {
    assert k == |ring|;
    assert forall s :: s in servers ==> s in ring;
    assert Up(servers) == {};
  }

  lemma NoServers(servers: map<nat, Server>, ring: seq<nat>)
    requires Ring(servers, ring) && ring == []
    ensures servers == map[]
  {
    assert forall s :: s in servers ==> s in ring;
  }

  lemma Rotated(servers: map<nat, Server>, ring: seq<nat>, k: nat)
    requires Ring(servers, ring) && k <= |ring|
    ensures Ring(servers, From(ring, k))
  {
    assert ring == ring[..k] + ring[k..];
  }
}
