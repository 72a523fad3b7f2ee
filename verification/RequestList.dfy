/** The circular, doubly linked lists that requests and servers are kept in. */
module RequestList {

  class Node {
    var next: Node?
    var prev: Node?
    constructor ()
      ensures next == null && prev == null
    {
      next, prev := null, null;
    }
  }

  function After(i: nat, n: nat): (j: nat)
    requires i < n
    ensures j < n
  {
    if i + 1 < n then i + 1 else 0
  }

  function Before(i: nat, n: nat): (j: nat)
    requires i < n
    ensures j < n && After(j, n) == i
  {
    if i > 0 then i - 1 else n - 1
  }

  /** The nodes are linked in a circle, in this order. */
  ghost predicate Circle(nodes: seq<Node>)
    reads nodes
  {
    && (forall i, j :: 0 <= i < j < |nodes| ==> nodes[i] != nodes[j])
    && (forall i :: 0 <= i < |nodes| ==>
         nodes[i].next == nodes[After(i, |nodes|)] && nodes[i].prev == nodes[Before(i, |nodes|)])
  }

  /** Where the i-th node of b + a is in a + b. */
  function Turned(i: nat, na: nat, nb: nat): (k: nat)
    requires i < na + nb
    ensures k < na + nb
  {
    if i < nb then na + i else i - nb
  }

  lemma TurnedAt(a: seq<Node>, b: seq<Node>, i: nat)
    requires i < |a| + |b|
    ensures (b + a)[i] == (a + b)[Turned(i, |a|, |b|)]
  {
  }

  lemma TurnedNext(na: nat, nb: nat, i: nat)
    requires i < na + nb
    ensures Turned(After(i, na + nb), na, nb) == After(Turned(i, na, nb), na + nb)
    ensures Turned(Before(i, na + nb), na, nb) == Before(Turned(i, na, nb), na + nb)
  {
  }

  /** A circle can be read from any node on. */
  lemma Turn(a: seq<Node>, b: seq<Node>)
    requires Circle(a + b)
    ensures Circle(b + a)
  {
    hide After, Before;
    var n, c, d := |a + b|, a + b, b + a;
    forall i | 0 <= i < n
      ensures d[i].next == d[After(i, n)] && d[i].prev == d[Before(i, n)]
    {
      TurnedAt(a, b, i);
      TurnedAt(a, b, After(i, n));
      TurnedAt(a, b, Before(i, n));
      TurnedNext(|a|, |b|, i);
    }
    forall i, j | 0 <= i < j < n
      ensures d[i] != d[j]
    {
      TurnedAt(a, b, i);
      TurnedAt(a, b, j);
    }
  }

  lemma Ends(r: seq<Node>)
    requires Circle(r) && r != []
    ensures r[0] !in r[1..] && r[0].prev == r[|r| - 1] && (r[0].next == r[0] <==> |r| == 1)
  {
    assert r[0].next == r[After(0, |r|)];
  }

  lemma Second(r: seq<Node>)
    requires Circle(r) && r != []
    ensures r[0].next == (r[1..] + r[..1])[0]
  {
    assert r[0].next == r[After(0, |r|)];
  }

  /** Take the first node out of a circle of several. */
  method Unlink(req: Node, ghost r: seq<Node>)
    requires Circle(r) && |r| > 1 && req == r[0]
    modifies r
    ensures Circle(r[1..]) && req !in r[1..] && req.next == r[1]
  {
    ghost var rest := r[1..];
    assert req.next == r[1] && req.prev == r[|r| - 1];
    req.next.prev := req.prev;
    req.prev.next := req.next;
    forall i | 0 <= i < |rest|
      ensures rest[i].next == rest[After(i, |rest|)] && rest[i].prev == rest[Before(i, |rest|)]
    {
      assert rest[i] == r[i + 1];
    }
  }

  lemma Alone(req: Node, a: seq<Node>, b: seq<Node>)
    requires Circle(a + [req] + b) && req.next == req
    ensures a == [] && b == [] && Circle([]) && req !in a + b
  {
    var c := a + [req] + b;
    assert c[|a|].next == c[After(|a|, |c|)];
  }

  method UnlinkFrom(req: Node, ghost a: seq<Node>, ghost b: seq<Node>)
    requires Circle(a + [req] + b) && req.next != req
    modifies a + [req] + b
    ensures Circle(a + b) && req !in a + b && a + b != [] && (a == [] ==> req.next == b[0])
  {
    hide Circle;
    ghost var r := [req] + b + a;
    assert a + [req] + b == a + ([req] + b) && r == ([req] + b) + a && r[1..] == b + a;
    Turn(a, [req] + b);
    Ends(r);
    assert forall i :: 0 <= i < |r| ==> r[i] in a + [req] + b;
    Unlink(req, r);
    Turn(b, a);
  }

  method Clear(req: Node, ghost c: seq<Node>)
    requires Circle(c) && req !in c
    modifies req
    ensures Circle(c) && req.next == null && req.prev == null
  {
    hide Circle;
    assert forall i :: 0 <= i < |c| ==> c[i] != req;
    req.next, req.prev := null, null;
  }

  /** Between the last node of a circle and its first. */
  method LinkIn(head: Node, req: Node, ghost c: seq<Node>)
    requires Circle(c) && c != [] && head == c[0] && req !in c
    modifies req, c
    ensures Circle(c + [req])
  {
    assert head.prev == c[|c| - 1] && head in c;
    req.prev := head.prev;
    req.prev.next := req;
    req.next := head;
    head.prev := req;
    ghost var all := c + [req];
    forall i | 0 <= i < |all|
      ensures all[i].next == all[After(i, |all|)] && all[i].prev == all[Before(i, |all|)]
    {
      if i < |c| { assert all[i] == c[i]; }
    }
  }

  /** A list is known by its head; nodes are what one meets going round from there. */
  class List {
    var head: Node?
    ghost var nodes: seq<Node>

    ghost predicate Valid()
      reads this, nodes
    {
      Circle(nodes) && head == if nodes == [] then null else nodes[0]
    }

    constructor ()
      ensures Valid() && nodes == []
    {
      head, nodes := null, [];
    }

    /** evdns_request_insert: at the tail. */
    method Insert(req: Node)
      requires Valid() && req !in nodes
      modifies this, req, nodes
      ensures Valid() && nodes == old(nodes) + [req]
    {
      if head == null {
        head := req;
        req.next, req.prev := req, req;
      } else {
        LinkIn(head, req, nodes);
      }
      nodes := nodes + [req];
    }

    /** evdns_request_remove */
    method Remove(req: Node, ghost k: nat)
      requires Valid() && k < |nodes| && req == nodes[k]
      modifies this, nodes
      ensures Valid() && nodes == old(nodes)[..k] + old(nodes)[k + 1..] && req.next == null && req.prev == null
    {
      hide Circle;
      ghost var a, b := nodes[..k], nodes[k + 1..];
      assert nodes == a + [req] + b;
      Ends(nodes);
      if req.next == req {
        head := null;
        Alone(req, a, b);
      } else {
        UnlinkFrom(req, a, b);
        if head == req {
          head := req.next;
        }
      }
      Clear(req, a + b);
      nodes := a + b;
    }

    /** Shift the start on by one: the next server's turn. */
    method Advance()
      requires Valid() && nodes != []
      modifies this
      ensures Valid() && nodes == old(nodes)[1..] + old(nodes)[..1]
    {
      hide Circle;
      assert nodes == nodes[..1] + nodes[1..];
      Turn(nodes[..1], nodes[1..]);
      Second(nodes);
      head := head.next;
      nodes := nodes[1..] + nodes[..1];
    }

    /** Insert and shift the start back by one: the request goes in front of those that wait. */
    method InsertFirst(req: Node)
      requires Valid() && req !in nodes
      modifies this, req, nodes
      ensures Valid() && nodes == [req] + old(nodes)
    {
      hide Circle;
      Insert(req);
      ghost var n := |nodes|;
      Ends(nodes);
      assert nodes == nodes[..n - 1] + [nodes[n - 1]];
      Turn(nodes[..n - 1], [nodes[n - 1]]);
      head := head.prev;
      nodes := [nodes[n - 1]] + nodes[..n - 1];
    }
  }
}
