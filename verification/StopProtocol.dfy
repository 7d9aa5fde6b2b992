/** How the workers of a load tree stop. */
module StopProtocol {
  import opened Options

  // A worker that has been asked to stop reports to its parent when all its children have
  // reported; when the root would report, the order to exit goes down the tree.

  // The load map: the parent of every worker. `depth` only says that it is a tree.
  datatype Tree = Tree(parent: seq<Option<nat>>, depth: seq<nat>, root: nat) {
    ghost predicate Valid() {
      && |depth| == |parent| && root < |parent|
      && forall i | 0 <= i < |parent| ::
           if i == root then parent[i].None?
           else parent[i].Some? && parent[i].value < |parent| && depth[parent[i].value] < depth[i]
    }

    function Children(p: nat): set<nat> { set c | 0 <= c < |parent| && parent[c] == Some(p) }
  }

  // `stopping` is stop_key, all keys being equal; `up` and `down` count the messages under way
  // to the parent of a worker, and to the worker from its parent; `reported` records, by
  // child, that its message has been handled.
  datatype Sys = Sys(stopping: seq<bool>, sent: seq<bool>, num: seq<nat>, idle: seq<bool>,
                     up: seq<nat>, down: seq<nat>, reported: seq<bool>)

  datatype Event =
    | StopSys(i: nat)         // stop_sys, called by the user
    | HandleStop(i: nat)      // handle_stop at the end of a pass
    | GotUp(c: nat)           // mck_tok_stop_sys_to_parent from worker c
    | GotDown(i: nat)         // mck_tok_stop_sys_to_children at worker i

  ghost predicate Sized(t: Tree, s: Sys) {
    var n := |t.parent|;
    |s.stopping| == n && |s.sent| == n && |s.num| == n && |s.idle| == n && |s.up| == n && |s.down| == n && |s.reported| == n
  }

  // send_stop_to_children
  function ToChildren(t: Tree, s: Sys, i: nat): Sys
    requires i < |s.idle| && |s.down| == |t.parent|
  {
    s.(down := seq(|s.down|, c requires 0 <= c < |s.down| => if t.parent[c] == Some(i) then s.down[c] + 1 else s.down[c]),
       idle := s.idle[i := true])
  }

  ghost predicate Next(t: Tree, s: Sys, e: Event, s': Sys) {
    && Sized(t, s)
    && match e
       case StopSys(i) => i < |t.parent| && s' == s.(stopping := s.stopping[i := true])
       case HandleStop(i) =>
         && i < |t.parent| && s.stopping[i]
         && if s.sent[i] || s.num[i] != |t.Children(i)| then s' == s
            else
              var s1 := s.(sent := s.sent[i := true]);
              s' == if t.parent[i].Some? then s1.(up := s.up[i := s.up[i] + 1]) else ToChildren(t, s1, i)
       case GotUp(c) =>
         && c < |t.parent| && s.up[c] > 0 && t.parent[c].Some? && t.parent[c].value < |t.parent|
         && s' == s.(up := s.up[c := s.up[c] - 1], reported := s.reported[c := true],
                     num := s.num[t.parent[c].value := s.num[t.parent[c].value] + 1])
       case GotDown(i) =>
         i < |t.parent| && s.down[i] > 0 && s' == ToChildren(t, s.(down := s.down[i := s.down[i] - 1]), i)
  }

  function Start(n: nat): Sys {
    Sys(seq(n, _ => false), seq(n, _ => false), seq(n, _ => 0), seq(n, _ => false), seq(n, _ => 0), seq(n, _ => 0),
        seq(n, _ => false))
  }

  ghost predicate Run(t: Tree, tr: seq<Sys>, es: seq<Event>) {
    && |tr| == |es| + 1 && tr[0] == Start(|t.parent|)
    && forall i | 0 <= i < |es| :: Next(t, tr[i], es[i], tr[i + 1])
  }

  ghost predicate Reachable(t: Tree, s: Sys) {
    exists tr, es :: Run(t, tr, es) && tr[|es|] == s
  }

  // ---------------------------------------------------------------- the invariant

  function B(x: bool): nat { if x then 1 else 0 }

  ghost function Reporters(t: Tree, s: Sys, p: nat): set<nat> {
    set c | c in t.Children(p) && c < |s.reported| && s.reported[c]
  }

  // One worker: it reports once, after it was asked to and all its children have reported; the
  // order to exit comes once, from a parent that exits itself.
  ghost predicate WorkerOk(t: Tree, s: Sys, i: nat)
    requires Sized(t, s) && i < |t.parent|
  {
    && (s.sent[i] ==> s.stopping[i] && Reporters(t, s, i) == t.Children(i))
    && s.num[i] == |Reporters(t, s, i)|
    && (t.parent[i].Some? ==> s.up[i] + B(s.reported[i]) == B(s.sent[i]))
    && (i == t.root ==> s.up[i] == 0 && !s.reported[i] && s.down[i] == 0 && s.idle[i] == s.sent[i])
    && (t.parent[i].Some? && t.parent[i].value < |s.idle| ==> s.down[i] + B(s.idle[i]) == B(s.idle[t.parent[i].value]))
  }

  ghost predicate Inv(t: Tree, s: Sys) {
    Sized(t, s) && forall i {:trigger WorkerOk(t, s, i)} | 0 <= i < |t.parent| :: WorkerOk(t, s, i)
  }

  lemma {:induction false} StopInv(t: Tree, s: Sys, i: nat)
    requires t.Valid() && Inv(t, s) && i < |t.parent|
    ensures Inv(t, s.(stopping := s.stopping[i := true]))
  {
    var s' := s.(stopping := s.stopping[i := true]);
    forall j | 0 <= j < |t.parent| ensures WorkerOk(t, s', j) {
      assert WorkerOk(t, s, j);
      assert Reporters(t, s', j) == Reporters(t, s, j);
    }
  }

  lemma AllReported(t: Tree, s: Sys, i: nat)
    requires Sized(t, s) && i < |t.parent| && |Reporters(t, s, i)| == |t.Children(i)|
    ensures Reporters(t, s, i) == t.Children(i)
  {
    SubsetSize(Reporters(t, s, i), t.Children(i));
  }

  lemma {:induction false} SubsetSize(a: set<nat>, b: set<nat>)
    requires a <= b && |a| == |b|
    ensures a == b
    decreases a
  {
    if a == {} {
    } else {
      var x :| x in a;
      SubsetSize(a - {x}, b - {x});
    }
  }

  lemma {:induction false} HandleInv(t: Tree, s: Sys, i: nat, s': Sys)
    requires t.Valid() && Inv(t, s) && Next(t, s, HandleStop(i), s')
    ensures Inv(t, s')
  {
    assert WorkerOk(t, s, i);
    if !s.sent[i] && s.num[i] == |t.Children(i)| {
      AllReported(t, s, i);
      forall j | 0 <= j < |t.parent| ensures WorkerOk(t, s', j) {
        assert WorkerOk(t, s, j);
        assert Reporters(t, s', j) == Reporters(t, s, j);
      }
    }
  }

  // One more child has reported.
  lemma OneMore(t: Tree, s: Sys, c: nat, s': Sys)
    requires Sized(t, s) && c < |t.parent| && t.parent[c].Some? && !s.reported[c]
    requires |s'.reported| == |s.reported| && s'.reported == s.reported[c := true]
    ensures |Reporters(t, s', t.parent[c].value)| == |Reporters(t, s, t.parent[c].value)| + 1
    ensures Reporters(t, s, t.parent[c].value) != t.Children(t.parent[c].value)
    ensures forall j: nat | j != t.parent[c].value :: Reporters(t, s', j) == Reporters(t, s, j)
  {
    var p := t.parent[c].value;
    assert Reporters(t, s', p) == Reporters(t, s, p) + {c};
    assert c in t.Children(p) && c !in Reporters(t, s, p);
    forall j: nat | j != p ensures Reporters(t, s', j) == Reporters(t, s, j) {
      forall x: nat ensures x in Reporters(t, s', j) <==> x in Reporters(t, s, j) {}
    }
  }

  lemma {:induction false} UpWorker(t: Tree, s: Sys, c: nat, s': Sys, j: nat)
    requires t.Valid() && Inv(t, s) && Next(t, s, GotUp(c), s') && j < |t.parent|
    ensures WorkerOk(t, s', j)
  {
    assert WorkerOk(t, s, c) && WorkerOk(t, s, j);
    OneMore(t, s, c, s');
  }

  lemma {:induction false} UpInv(t: Tree, s: Sys, c: nat, s': Sys)
    requires t.Valid() && Inv(t, s) && Next(t, s, GotUp(c), s')
    ensures Inv(t, s')
  {
    forall j | 0 <= j < |t.parent| ensures WorkerOk(t, s', j) { UpWorker(t, s, c, s', j); }
  }

  lemma {:induction false} DownInv(t: Tree, s: Sys, i: nat, s': Sys)
    requires t.Valid() && Inv(t, s) && Next(t, s, GotDown(i), s')
    ensures Inv(t, s')
  {
    assert WorkerOk(t, s, i);
    forall j | 0 <= j < |t.parent| ensures WorkerOk(t, s', j) {
      assert WorkerOk(t, s, j);
      assert Reporters(t, s', j) == Reporters(t, s, j);
    }
  }

  lemma {:induction false} StartInv(t: Tree)
    requires t.Valid()
    ensures Inv(t, Start(|t.parent|))
  {
    var s := Start(|t.parent|);
    forall j | 0 <= j < |t.parent| ensures WorkerOk(t, s, j) { assert Reporters(t, s, j) == {}; }
  }

  lemma {:induction false} RunInv(t: Tree, tr: seq<Sys>, es: seq<Event>, k: nat)
    requires t.Valid() && Run(t, tr, es) && k <= |es|
    ensures Inv(t, tr[k])
    decreases k
  {
    if k == 0 {
      StartInv(t);
    } else {
      RunInv(t, tr, es, k - 1);
      assert Next(t, tr[k - 1], es[k - 1], tr[k]);
      match es[k - 1]
      case StopSys(i) => StopInv(t, tr[k - 1], i);
      case HandleStop(i) => HandleInv(t, tr[k - 1], i, tr[k]);
      case GotUp(c) => UpInv(t, tr[k - 1], c, tr[k]);
      case GotDown(i) => DownInv(t, tr[k - 1], i, tr[k]);
    }
  }

  lemma {:induction false} ReachableInv(t: Tree, s: Sys)
    requires t.Valid() && Reachable(t, s)
    ensures Inv(t, s)
  {
    var tr, es :| Run(t, tr, es) && tr[|es|] == s;
    RunInv(t, tr, es, |es|);
  }

  // ---------------------------------------------------------------- consequences

  // When the root would report, every worker has reported, and so was asked to stop.
  lemma {:induction false} RootSentLast(t: Tree, s: Sys, i: nat)
    requires t.Valid() && Inv(t, s) && i < |t.parent| && s.sent[t.root]
    ensures s.sent[i] && s.stopping[i]
    decreases t.depth[i]
  {
    assert WorkerOk(t, s, i);
    if i != t.root {
      var p := t.parent[i].value;
      RootSentLast(t, s, p);
      assert WorkerOk(t, s, p) && i in t.Children(p);
      assert i in Reporters(t, s, p);
    }
  }

  lemma {:induction false} ExitsFromRoot(t: Tree, s: Sys, i: nat)
    requires t.Valid() && Inv(t, s) && i < |t.parent| && s.idle[i]
    ensures s.sent[t.root]
    decreases t.depth[i]
  {
    assert WorkerOk(t, s, i);
    if i != t.root { ExitsFromRoot(t, s, t.parent[i].value); }
  }

  // No worker exits before every worker of the tree has been asked to stop.
  lemma NobodyExitsEarly(t: Tree, s: Sys, i: nat, j: nat)
    requires t.Valid() && Reachable(t, s) && i < |t.parent| && j < |t.parent|
    ensures Sized(t, s) && (s.idle[i] ==> s.stopping[j])
  {
    ReachableInv(t, s);
    if s.idle[i] {
      ExitsFromRoot(t, s, i);
      RootSentLast(t, s, j);
    }
  }

  // A worker reports at most once: its one message is under way or has been counted, by a
  // parent that counts exactly its children; and it reports only after all of them.
  lemma ReportsOnceAfterChildren(t: Tree, s: Sys, i: nat, c: nat)
    requires t.Valid() && Reachable(t, s) && i < |t.parent| && c in t.Children(i)
    ensures Sized(t, s) && s.up[c] + B(s.reported[c]) == B(s.sent[c]) && s.num[i] <= |t.Children(i)|
    ensures s.sent[i] ==> s.reported[c] && s.sent[c] && s.stopping[c]
  {
    ReachableInv(t, s);
    assert WorkerOk(t, s, i) && WorkerOk(t, s, c);
    SubsetCard(Reporters(t, s, i), t.Children(i));
    if s.sent[i] { assert c in Reporters(t, s, i); }
  }

  lemma {:induction false} SubsetCard(a: set<nat>, b: set<nat>)
    requires a <= b
    ensures |a| <= |b|
    decreases a
  {
    if a != {} {
      var x :| x in a;
      SubsetCard(a - {x}, b - {x});
    }
  }

  // No message is under way and no pass would change anything.
  ghost predicate Settled(t: Tree, s: Sys)
    requires Sized(t, s)
  {
    forall i | 0 <= i < |t.parent| ::
      && s.up[i] == 0 && s.down[i] == 0
      && (s.stopping[i] ==> s.sent[i] || s.num[i] != |t.Children(i)|)
  }

  // If everybody was asked to stop, the protocol cannot come to rest before everybody exits.
  lemma SettledMeansDone(t: Tree, s: Sys, i: nat)
    requires t.Valid() && Reachable(t, s) && i < |t.parent| && Sized(t, s) && Settled(t, s)
    requires forall j | 0 <= j < |t.parent| :: s.stopping[j]
    ensures s.idle[i]
  {
    ReachableInv(t, s);
    forall j | 0 <= j < |t.parent| ensures s.sent[j] { SettledSent(t, s, j, MaxDepth(t)); }
    SettledIdle(t, s, i);
  }

  ghost function MaxDepth(t: Tree): nat
    requires t.Valid()
    ensures forall j | 0 <= j < |t.parent| :: t.depth[j] <= MaxDepth(t)
  {
    MaxOf(t.depth, |t.depth|)
  }

  ghost function MaxOf(d: seq<nat>, n: nat): (m: nat)
    requires n <= |d|
    ensures forall j | 0 <= j < n :: d[j] <= m
  {
    if n == 0 then 0 else var m := MaxOf(d, n - 1); if d[n - 1] > m then d[n - 1] else m
  }

  lemma {:induction false} SettledSent(t: Tree, s: Sys, i: nat, max: nat)
    requires t.Valid() && Inv(t, s) && Settled(t, s) && i < |t.parent|
    requires (forall j | 0 <= j < |t.parent| :: s.stopping[j] && t.depth[j] <= max)
    ensures s.sent[i]
    decreases max - t.depth[i]
  {
    assert WorkerOk(t, s, i);
    forall c | c in t.Children(i) ensures c in Reporters(t, s, i) {
      SettledSent(t, s, c, max);
      assert WorkerOk(t, s, c);
    }
    assert Reporters(t, s, i) == t.Children(i);
  }

  lemma {:induction false} SettledIdle(t: Tree, s: Sys, i: nat)
    requires t.Valid() && Inv(t, s) && Settled(t, s) && i < |t.parent|
    requires forall j | 0 <= j < |t.parent| :: s.sent[j]
    ensures s.idle[i]
    decreases t.depth[i]
  {
    assert WorkerOk(t, s, i);
    if i != t.root { SettledIdle(t, s, t.parent[i].value); }
  }

  // ---------------------------------------------------------------- the protocol goes on to its end

  // A step of the workers, which changes something.
  ghost predicate Works(t: Tree, s: Sys, e: Event, s': Sys) {
    !e.StopSys? && Next(t, s, e, s') && s' != s
  }

  // `Settled` is what it should be: no step of the workers changes anything.
  lemma {:induction false} SettledMeansNoStep(t: Tree, s: Sys)
    requires t.Valid() && Reachable(t, s)
    ensures Sized(t, s) && (Settled(t, s) <==> forall e, s' :: !Works(t, s, e, s'))
  {
    ReachableInv(t, s);
    if !Settled(t, s) {
      var e, s' := SomeStep(t, s);
    } else {
      forall e, s' ensures !Works(t, s, e, s') {
        if !e.StopSys? && Next(t, s, e, s') { SettledStays(t, s, e, s'); }
      }
    }
  }

  lemma {:induction false} SettledStays(t: Tree, s: Sys, e: Event, s': Sys)
    requires Sized(t, s) && Settled(t, s) && !e.StopSys? && Next(t, s, e, s')
    ensures s' == s
  {
  }

  // Where something is under way or due, some step changes something.
  lemma {:induction false} SomeStep(t: Tree, s: Sys) returns (e: Event, s': Sys)
    requires t.Valid() && Inv(t, s) && !Settled(t, s)
    ensures Works(t, s, e, s')
  {
    var i :| 0 <= i < |t.parent| &&
      !(s.up[i] == 0 && s.down[i] == 0 && (s.stopping[i] ==> s.sent[i] || s.num[i] != |t.Children(i)|));
    assert WorkerOk(t, s, i);
    if s.up[i] > 0 {
      e := GotUp(i);
      s' := s.(up := s.up[i := s.up[i] - 1], reported := s.reported[i := true],
               num := s.num[t.parent[i].value := s.num[t.parent[i].value] + 1]);
      assert s'.up[i] != s.up[i];
    } else if s.down[i] > 0 {
      e := GotDown(i);
      s' := ToChildren(t, s.(down := s.down[i := s.down[i] - 1]), i);
      assert s'.idle[i] != s.idle[i];
    } else {
      e := HandleStop(i);
      var s1 := s.(sent := s.sent[i := true]);
      s' := if t.parent[i].Some? then s1.(up := s.up[i := s.up[i] + 1]) else ToChildren(t, s1, i);
      assert s'.sent[i] != s.sent[i];
    }
  }

  // What the first `k` workers still have to do: to report, to be counted, to exit.
  function ToDo(s: Sys, k: nat): nat
    requires k <= |s.sent| && k <= |s.reported| && k <= |s.idle|
  {
    if k == 0 then 0 else ToDo(s, k - 1) + B(!s.sent[k - 1]) + B(!s.reported[k - 1]) + B(!s.idle[k - 1])
  }

  predicate Further(s: Sys, s': Sys, i: nat) {
    && i < |s.sent| && i < |s.reported| && i < |s.idle| && i < |s'.sent| && i < |s'.reported| && i < |s'.idle|
    && (s.sent[i] ==> s'.sent[i]) && (s.reported[i] ==> s'.reported[i]) && (s.idle[i] ==> s'.idle[i])
  }

  lemma {:induction false} ToDoLess(s: Sys, s': Sys, i: nat, k: nat)
    requires forall j: nat | j < k :: Further(s, s', j)
    requires k <= |s.sent| && k <= |s.reported| && k <= |s.idle|
    requires k <= |s'.sent| && k <= |s'.reported| && k <= |s'.idle|
    requires i < k ==> s'.sent[i] != s.sent[i] || s'.reported[i] != s.reported[i] || s'.idle[i] != s.idle[i]
    ensures ToDo(s', k) <= ToDo(s, k) && (i < k ==> ToDo(s', k) < ToDo(s, k))
  {
    if k > 0 {
      assert Further(s, s', k - 1);
      ToDoLess(s, s', i, k - 1);
    }
  }

  // Every step that changes something leaves less to do, so that there are at most three of them
  // for every worker.
  lemma {:induction false} EveryStepCounts(t: Tree, s: Sys, e: Event, s': Sys)
    requires t.Valid() && Inv(t, s) && Works(t, s, e, s')
    ensures Inv(t, s') && s'.stopping == s.stopping
    ensures ToDo(s', |t.parent|) < ToDo(s, |t.parent|) <= 3 * |t.parent|
  {
    match e {
      case HandleStop(i) => HandleInv(t, s, i, s');
      case GotUp(c) =>
        UpInv(t, s, c, s');
        assert WorkerOk(t, s, c);
      case GotDown(i) =>
        DownInv(t, s, i, s');
        assert WorkerOk(t, s, i);
    }
    var i := if e.GotUp? then e.c else e.i;
    forall j: nat | j < |t.parent| ensures Further(s, s', j) {}
    ToDoLess(s, s', i, |t.parent|);
    ToDoBound(s, |t.parent|);
  }

  lemma {:induction false} ToDoBound(s: Sys, k: nat)
    requires k <= |s.sent| && k <= |s.reported| && k <= |s.idle|
    ensures ToDo(s, k) <= 3 * k
  {
    if k > 0 { ToDoBound(s, k - 1); }
  }

  // The workers go from one state to another in `n` steps that change something.
  ghost predicate Leads(t: Tree, s: Sys, n: nat, s': Sys)
    decreases n
  {
    if n == 0 then s' == s else exists e, mid :: Works(t, s, e, mid) && Leads(t, mid, n - 1, s')
  }

  lemma {:induction false} Goes(t: Tree, s: Sys) returns (n: nat, s': Sys)
    requires t.Valid() && Inv(t, s)
    ensures Leads(t, s, n, s') && Inv(t, s') && Settled(t, s') && s'.stopping == s.stopping && n <= ToDo(s, |t.parent|)
    decreases ToDo(s, |t.parent|)
  {
    if Settled(t, s) {
      n, s' := 0, s;
    } else {
      var e, mid := SomeStep(t, s);
      EveryStepCounts(t, s, e, mid);
      n, s' := Goes(t, mid);
      n := n + 1;
      assert Works(t, s, e, mid) && Leads(t, mid, n - 1, s');
    }
  }

  lemma {:induction false} SettledInvMeansDone(t: Tree, s: Sys)
    requires t.Valid() && Inv(t, s) && Settled(t, s) && forall j | 0 <= j < |t.parent| :: s.stopping[j]
    ensures forall i | 0 <= i < |t.parent| :: s.idle[i] && s.sent[i] && (t.parent[i].Some? ==> s.reported[i])
  {
    forall j | 0 <= j < |t.parent| ensures s.sent[j] { SettledSent(t, s, j, MaxDepth(t)); }
    forall i | 0 <= i < |t.parent| ensures s.idle[i] && (t.parent[i].Some? ==> s.reported[i]) {
      SettledIdle(t, s, i);
      assert WorkerOk(t, s, i);
    }
  }

  // From every reachable state in which everybody has been asked to stop, the workers get to one in
  // which everybody exits, in at most three steps for every worker.
  lemma {:induction false} EverybodyExits(t: Tree, s: Sys) returns (n: nat, s': Sys)
    requires t.Valid() && Reachable(t, s) && Sized(t, s) && forall j | 0 <= j < |t.parent| :: s.stopping[j]
    ensures Leads(t, s, n, s') && n <= 3 * |t.parent| && Sized(t, s')
    ensures forall i | 0 <= i < |t.parent| :: s'.idle[i] && s'.sent[i] && (t.parent[i].Some? ==> s'.reported[i])
  {
    ReachableInv(t, s);
    n, s' := Goes(t, s);
    ToDoBound(s, |t.parent|);
    SettledInvMeansDone(t, s');
  }

  // However they go on, they stop after so many steps, and then everybody exits.
  lemma {:induction false} EveryWayEnds(t: Tree, s: Sys, n: nat, s': Sys)
    requires t.Valid() && Reachable(t, s) && Leads(t, s, n, s')
    requires Sized(t, s) && forall j | 0 <= j < |t.parent| :: s.stopping[j]
    ensures n <= 3 * |t.parent|
    ensures (forall e, s2 :: !Works(t, s', e, s2)) ==> Sized(t, s') && forall i | 0 <= i < |t.parent| :: s'.idle[i]
  {
    ReachableInv(t, s);
    LeadsInv(t, s, n, s');
    ToDoBound(s, |t.parent|);
    if forall e, s2 :: !Works(t, s', e, s2) {
      if !Settled(t, s') { var e, s2 := SomeStep(t, s'); }
      SettledInvMeansDone(t, s');
    }
  }

  lemma {:induction false} LeadsInv(t: Tree, s: Sys, n: nat, s': Sys)
    requires t.Valid() && Inv(t, s) && Leads(t, s, n, s')
    ensures Inv(t, s') && s'.stopping == s.stopping && n + ToDo(s', |t.parent|) <= ToDo(s, |t.parent|)
    decreases n
  {
    if n > 0 {
      var mid := FirstStep(t, s, n, s');
      LeadsInv(t, mid, n - 1, s');
    }
  }

  lemma {:induction false} FirstStep(t: Tree, s: Sys, n: nat, s': Sys) returns (mid: Sys)
    requires t.Valid() && Inv(t, s) && Leads(t, s, n, s') && n > 0
    ensures Inv(t, mid) && mid.stopping == s.stopping && ToDo(mid, |t.parent|) < ToDo(s, |t.parent|)
    ensures Leads(t, mid, n - 1, s')
  {
    var e, m :| Works(t, s, e, m) && Leads(t, m, n - 1, s');
    EveryStepCounts(t, s, e, m);
    mid := m;
  }

  lemma OneMoreStep(t: Tree, s: Sys, e: Event, s': Sys)
    requires Reachable(t, s) && Next(t, s, e, s')
    ensures Reachable(t, s')
  {
    var tr, es :| Run(t, tr, es) && tr[|es|] == s;
    var tr', es' := tr + [s'], es + [e];
    forall i | 0 <= i < |es'| ensures Next(t, tr'[i], es'[i], tr'[i + 1]) {
      if i < |es| { assert Next(t, tr[i], es[i], tr[i + 1]); }
    }
    assert Run(t, tr', es');
  }

  lemma {:induction false} LeadsReachable(t: Tree, s: Sys, n: nat, s': Sys)
    requires Reachable(t, s) && Leads(t, s, n, s')
    ensures Reachable(t, s')
    decreases n
  {
    if n > 0 {
      var mid := ReachesFirst(t, s, n, s');
      LeadsReachable(t, mid, n - 1, s');
    }
  }

  lemma {:induction false} ReachesFirst(t: Tree, s: Sys, n: nat, s': Sys) returns (mid: Sys)
    requires Reachable(t, s) && Leads(t, s, n, s') && n > 0
    ensures Reachable(t, mid) && Leads(t, mid, n - 1, s')
  {
    var e, m :| Works(t, s, e, m) && Leads(t, m, n - 1, s');
    OneMoreStep(t, s, e, m);
    mid := m;
  }

  // The user asks the first `k` workers to stop.
  lemma {:induction false} Asked(t: Tree, k: nat) returns (s: Sys)
    requires t.Valid() && k <= |t.parent|
    ensures Reachable(t, s) && Sized(t, s) && forall j | 0 <= j < k :: s.stopping[j]
  {
    if k == 0 {
      s := Start(|t.parent|);
      assert Run(t, [s], []);
    } else {
      var s0 := Asked(t, k - 1);
      s := s0.(stopping := s0.stopping[k - 1 := true]);
      OneMoreStep(t, s0, StopSys(k - 1), s);
    }
  }

  // Every load tree has a run, from its start on, in which everybody exits.
  lemma {:induction false} WholeRun(t: Tree) returns (s: Sys)
    requires t.Valid()
    ensures Reachable(t, s) && Sized(t, s) && forall i | 0 <= i < |t.parent| :: s.idle[i]
  {
    var s0 := Asked(t, |t.parent|);
    var n;
    n, s := EverybodyExits(t, s0);
    LeadsReachable(t, s0, n, s);
  }
}
