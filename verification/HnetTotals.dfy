/**
  Messages issued are messages delivered and messages held by the links of the simulated
  network, and every step keeps that.
 */
module HnetTotals {
  import opened HnetQueue
  import opened HnetNodes
  import opened HnetInv
  import opened HnetSteps

  // ---------------------------------------------------------------- conservation

  // The messages that the first `k` nodes have sent and received, and that the first `k` links
  // hold.
  function IssuedBy(nodes: seq<Node>, k: nat): multiset<Msg>
    requires k <= |nodes|
  {
    if k == 0 then multiset{} else IssuedBy(nodes, k - 1) + multiset(nodes[k - 1].issued)
  }

  function DeliveredTo(nodes: seq<Node>, k: nat): multiset<Msg>
    requires k <= |nodes|
  {
    if k == 0 then multiset{} else DeliveredTo(nodes, k - 1) + multiset(nodes[k - 1].delivered)
  }

  // In the register of a link, written and not read, or in the queue in front of it.
  function Held(l: Link): multiset<Msg> { multiset(l.sent) - multiset(l.taken) + multiset(l.buff) }

  function HeldBy(links: seq<Link>, k: nat): multiset<Msg>
    requires k <= |links|
  {
    if k == 0 then multiset{} else HeldBy(links, k - 1) + Held(links[k - 1])
  }

  // `a'` is `a` with `x` exchanged for `y`.
  predicate Exchanged(a: multiset<Msg>, x: multiset<Msg>, a': multiset<Msg>, y: multiset<Msg>) { a' + x == a + y }

  lemma ExchangedMore(a: multiset<Msg>, x: multiset<Msg>, a': multiset<Msg>, y: multiset<Msg>, c: multiset<Msg>)
    requires Exchanged(a, x, a', y)
    ensures Exchanged(a + c, x, a' + c, y)
  {
    assert (a' + c) + x == (a' + x) + c == (a + y) + c == (a + c) + y;
  }

  lemma ExchangedLast(a: multiset<Msg>, x: multiset<Msg>, y: multiset<Msg>)
    ensures Exchanged(a + x, x, a + y, y)
  {
  }

  lemma {:induction false} NodePut(nodes: seq<Node>, n: nat, x: Node, k: nat)
    requires n < |nodes| && k <= |nodes|
    ensures if n < k then
        && Exchanged(IssuedBy(nodes, k), multiset(nodes[n].issued), IssuedBy(nodes[n := x], k), multiset(x.issued))
        && Exchanged(DeliveredTo(nodes, k), multiset(nodes[n].delivered),
                     DeliveredTo(nodes[n := x], k), multiset(x.delivered))
      else IssuedBy(nodes[n := x], k) == IssuedBy(nodes, k) && DeliveredTo(nodes[n := x], k) == DeliveredTo(nodes, k)
  {
    if k > 0 {
      NodePut(nodes, n, x, k - 1);
      if n < k - 1 {
        var y := nodes[k - 1];
        ExchangedMore(IssuedBy(nodes, k - 1), multiset(nodes[n].issued),
                      IssuedBy(nodes[n := x], k - 1), multiset(x.issued), multiset(y.issued));
        ExchangedMore(DeliveredTo(nodes, k - 1), multiset(nodes[n].delivered),
                      DeliveredTo(nodes[n := x], k - 1), multiset(x.delivered), multiset(y.delivered));
      } else if n == k - 1 {
        ExchangedLast(IssuedBy(nodes, k - 1), multiset(nodes[n].issued), multiset(x.issued));
        ExchangedLast(DeliveredTo(nodes, k - 1), multiset(nodes[n].delivered), multiset(x.delivered));
      }
    }
  }

  lemma {:induction false} LinkPut(links: seq<Link>, i: nat, l: Link, k: nat)
    requires i < |links| && k <= |links|
    ensures if i < k then Exchanged(HeldBy(links, k), Held(links[i]), HeldBy(links[i := l], k), Held(l))
      else HeldBy(links[i := l], k) == HeldBy(links, k)
  {
    if k > 0 {
      LinkPut(links, i, l, k - 1);
      if i < k - 1 {
        ExchangedMore(HeldBy(links, k - 1), Held(links[i]), HeldBy(links[i := l], k - 1), Held(l), Held(links[k - 1]));
      } else if i == k - 1 {
        ExchangedLast(HeldBy(links, k - 1), Held(links[i]), Held(l));
      }
    }
  }

  ghost predicate Conserved(s: Sys) {
    IssuedBy(s.nodes, |s.nodes|) == DeliveredTo(s.nodes, |s.nodes|) + HeldBy(s.links, |s.links|)
  }

  // The message on a link leaves it when it is read.
  lemma TakeHeld(l: Link, m: Msg)
    requires l.sent == l.taken + [m]
    ensures Held(l) == Held(l.(taken := l.taken + [m])) + multiset{m}
  {
  }

  // A register that is free takes one more message, and so does a queue.
  lemma FillHeld(l: Link, m: Msg)
    requires l.sent == l.taken
    ensures Held(l.(msg := m, sent := l.sent + [m])) == Held(l) + multiset{m}
  {
  }

  lemma QueueHeld(l: Link, m: Msg)
    ensures Held(l.(buff := l.buff + [m])) == Held(l) + multiset{m}
  {
  }

  lemma LoadHeld(l: Link)
    requires l.sent == l.taken && l.buff != []
    ensures Held(l.(buff := l.buff[1..], msg := l.buff[0], sent := l.sent + [l.buff[0]])) == Held(l)
  {
    assert l.buff == [l.buff[0]] + l.buff[1..];
  }

  // Three totals, one the sum of the others; the first gets `p`, the second `q`, the third the rest.
  lemma Balanced(i: multiset<Msg>, x: multiset<Msg>, i': multiset<Msg>, x': multiset<Msg>,
                 d: multiset<Msg>, y: multiset<Msg>, d': multiset<Msg>, y': multiset<Msg>,
                 h: multiset<Msg>, z: multiset<Msg>, h': multiset<Msg>, z': multiset<Msg>,
                 p: multiset<Msg>, q: multiset<Msg>)
    requires Exchanged(i, x, i', x') && x' == x + p
    requires Exchanged(d, y, d', y') && y' == y + q
    requires Exchanged(h, z, h', z') && z' + q == z + p
    requires i == d + h
    ensures i' == d' + h'
  {
    forall m ensures i'[m] == (d' + h')[m] {
      assert (i' + x)[m] == (i + x')[m] && (d' + y)[m] == (d + y')[m] && (h' + z)[m] == (h + z')[m];
      assert (z' + q)[m] == (z + p)[m];
    }
  }

  // A step that changes node `n` and link `k`: `p` is what it issues and `q` what it delivers.
  lemma {:induction false} Balance(s: Sys, s': Sys, n: nat, k: nat, p: multiset<Msg>, q: multiset<Msg>)
    requires Conserved(s) && n < |s.nodes| && |s'.nodes| == |s.nodes| && s'.nodes == s.nodes[n := s'.nodes[n]]
    requires k < |s.links| && |s'.links| == |s.links| && s'.links == s.links[k := s'.links[k]]
    requires multiset(s'.nodes[n].issued) == multiset(s.nodes[n].issued) + p
    requires multiset(s'.nodes[n].delivered) == multiset(s.nodes[n].delivered) + q
    requires Held(s'.links[k]) + q == Held(s.links[k]) + p
    ensures Conserved(s')
  {
    var x, x', l, l' := s.nodes[n], s'.nodes[n], s.links[k], s'.links[k];
    var m, h := |s.nodes|, |s.links|;
    NodePut(s.nodes, n, x', m);
    LinkPut(s.links, k, l', h);
    Balanced(IssuedBy(s.nodes, m), multiset(x.issued), IssuedBy(s'.nodes, m), multiset(x'.issued),
             DeliveredTo(s.nodes, m), multiset(x.delivered), DeliveredTo(s'.nodes, m), multiset(x'.delivered),
             HeldBy(s.links, h), Held(l), HeldBy(s'.links, h), Held(l'), p, q);
  }

  lemma ExchangedNothing(a: multiset<Msg>, x: multiset<Msg>, a': multiset<Msg>)
    requires Exchanged(a, x, a', x)
    ensures a' == a
  {
    forall k ensures a'[k] == a[k] { assert (a' + x)[k] == (a + x)[k]; }
  }

  // Node `n` keeps what it has issued and delivered.
  lemma {:induction false} SameCounts(s: Sys, s': Sys, n: nat)
    requires n < |s.nodes| && |s'.nodes| == |s.nodes| && s'.nodes == s.nodes[n := s'.nodes[n]]
    requires s'.nodes[n].issued == s.nodes[n].issued && s'.nodes[n].delivered == s.nodes[n].delivered
    ensures IssuedBy(s'.nodes, |s'.nodes|) == IssuedBy(s.nodes, |s.nodes|)
    ensures DeliveredTo(s'.nodes, |s'.nodes|) == DeliveredTo(s.nodes, |s.nodes|)
  {
    var x, k := s.nodes[n], |s.nodes|;
    NodePut(s.nodes, n, s'.nodes[n], k);
    ExchangedNothing(IssuedBy(s.nodes, k), multiset(x.issued), IssuedBy(s'.nodes, k));
    ExchangedNothing(DeliveredTo(s.nodes, k), multiset(x.delivered), DeliveredTo(s'.nodes, k));
  }

  // A message goes from link `i` to link `o`.
  lemma {:induction false} Moves(links: seq<Link>, i: nat, li: Link, o: nat, lo: Link, m: Msg)
    requires i < |links| && o < |links|
    requires Held(links[i]) == Held(li) + multiset{m} && Held(lo) == Held(links[i := li][o]) + multiset{m}
    ensures HeldBy(links[i := li][o := lo], |links|) == HeldBy(links, |links|)
  {
    var mid, h := links[i := li], |links|;
    LinkPut(links, i, li, h);
    LinkPut(mid, o, lo, h);
    Moved(HeldBy(links, h), Held(links[i]), HeldBy(mid, h), Held(li),
          Held(mid[o]), HeldBy(mid[o := lo], h), Held(lo), multiset{m});
  }

  lemma Moved(a: multiset<Msg>, x: multiset<Msg>, b: multiset<Msg>, x': multiset<Msg>,
              y: multiset<Msg>, c: multiset<Msg>, y': multiset<Msg>, m: multiset<Msg>)
    requires Exchanged(a, x, b, x') && Exchanged(b, y, c, y') && x == x' + m && y' == y + m
    ensures c == a
  {
    forall k ensures c[k] == a[k] {
      assert (b + x)[k] == (a + x')[k] && (c + y)[k] == (b + y')[k];
    }
  }

  lemma {:induction false} QuietConserved(net: Net, s: Sys, e: Event, s': Sys)
    requires net.Valid() && Inv(net, s) && (Looks(e) || Turns(e)) && e.n < |s.nodes| && NodeNext(net, false, s, e, s')
    requires Conserved(s)
    ensures Conserved(s')
  {
    SameCounts(s, s', e.n);
  }

  lemma {:induction false} FlagConserved(net: Net, s: Sys, e: Event, s': Sys)
    requires net.Valid() && Inv(net, s) && Flags(e) && e.n < |s.nodes| && NodeNext(net, false, s, e, s')
    requires Conserved(s)
    ensures Conserved(s')
  {
    Own(net, s, e.n);
    var pc := s.nodes[e.n].pc;
    var k := if e.RaiseReq? || e.LowerReq? then pc.o else pc.i;
    Balance(s, s', e.n, k, multiset{}, multiset{});
  }

  lemma {:induction false} LoadConserved(net: Net, s: Sys, e: Event, s': Sys)
    requires net.Valid() && Inv(net, s) && e.Load? && e.n < |s.nodes| && NodeNext(net, false, s, e, s')
    requires Conserved(s)
    ensures Conserved(s')
  {
    Own(net, s, e.n);
    var pc := s.nodes[e.n].pc;
    LoadHeld(s.links[pc.o]);
    Balance(s, s', e.n, pc.o, multiset{}, multiset{});
  }

  lemma {:induction false} ReceiveConserved(net: Net, s: Sys, e: Event, s': Sys)
    requires net.Valid() && Inv(net, s) && e.Receive? && e.n < |s.nodes| && NodeNext(net, false, s, e, s')
    requires Conserved(s)
    ensures Conserved(s')
  {
    Own(net, s, e.n);
    var pc := s.nodes[e.n].pc;
    var m := s.links[pc.i].msg;
    TakeHeld(s.links[pc.i], m);
    Balance(s, s', e.n, pc.i, multiset{}, multiset{m});
  }

  lemma {:induction false} IssueConserved(net: Net, s: Sys, e: Event, s': Sys)
    requires net.Valid() && Inv(net, s) && e.Issue? && e.n < |s.nodes| && NodeNext(net, false, s, e, s')
    requires Conserved(s)
    ensures Conserved(s')
  {
    Own(net, s, e.n);
    var pc := s.nodes[e.n].pc;
    FillHeld(s.links[pc.o], e.m);
    Balance(s, s', e.n, pc.o, multiset{e.m}, multiset{});
  }

  lemma {:induction false} CopyConserved(net: Net, s: Sys, e: Event, s': Sys)
    requires net.Valid() && Inv(net, s) && e.Copy? && e.n < |s.nodes| && NodeNext(net, false, s, e, s')
    requires Conserved(s)
    ensures Conserved(s')
  {
    Own(net, s, e.n);
    var i, o := s.nodes[e.n].pc.i, s.nodes[e.n].pc.o;
    var l, m := s.links[i], s.links[i].msg;
    var li := l.(taken := l.taken + [m]);
    var mid := s.links[i := li];
    TakeHeld(l, m);
    FillHeld(mid[o], m);
    SameCounts(s, s', e.n);
    Moves(s.links, i, li, o, mid[o].(msg := m, sent := mid[o].sent + [m]), m);
  }

  lemma {:induction false} StoreConserved(net: Net, s: Sys, e: Event, s': Sys)
    requires net.Valid() && Inv(net, s) && e.Store? && e.n < |s.nodes| && NodeNext(net, false, s, e, s')
    requires Conserved(s)
    ensures Conserved(s')
  {
    Own(net, s, e.n);
    var i := s.nodes[e.n].pc.i;
    var l, m := s.links[i], s.links[i].msg;
    var o := net.Route(e.n, m);
    var li := l.(taken := l.taken + [m]);
    var mid := s.links[i := li];
    TakeHeld(l, m);
    QueueHeld(mid[o], m);
    SameCounts(s, s', e.n);
    Moves(s.links, i, li, o, mid[o].(buff := mid[o].buff + [m]), m);
  }

  lemma {:induction false} NextConserved(net: Net, s: Sys, e: Event, s': Sys)
    requires net.Valid() && Inv(net, s) && !e.Waits? && e.n < |s.nodes| && NodeNext(net, false, s, e, s')
    requires Conserved(s)
    ensures Conserved(s')
  {
    if Looks(e) || Turns(e) { QuietConserved(net, s, e, s'); }
    else if Flags(e) { FlagConserved(net, s, e, s'); }
    else if e.Copy? { CopyConserved(net, s, e, s'); }
    else if e.Store? { StoreConserved(net, s, e, s'); }
    else if e.Load? { LoadConserved(net, s, e, s'); }
    else if e.Receive? { ReceiveConserved(net, s, e, s'); }
    else { IssueConserved(net, s, e, s'); }
  }
}
