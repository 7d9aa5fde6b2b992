/**
  What the linking passes of hlang.cpp compute, stated by continuations.

  A term's `next` is where control goes when the term is done (or its test fails). The
  first version below also says which once-only flags are set and allows the outside of a
  block to be still unknown; it is the invariant of the passes. The second (`LinkedS`) is
  for blocks whose surroundings are all known.
 */
module HlangLinks {
  import opened Options
  import opened HlangTerms

  // Jump targets of the surroundings of a term, and the expression of its switch.
  datatype Ctx = Ctx(brk: Option<nat>, cnt: Option<nat>, ret: Option<nat>, expr: Option<nat>) {
    function At(op: Op): Option<nat> {
      match op case Break => brk case Continue => cnt case Return => ret case Case => expr
    }
    function Set(op: Op, v: nat): Ctx {
      match op
      case Break => this.(brk := Some(v))
      case Continue => this.(cnt := Some(v))
      case Return => this.(ret := Some(v))
      case Case => this.(expr := Some(v))
    }
    function Ops(): (r: set<Op>)
      ensures forall op :: op in r <==> At(op).Some?
    {
      (if brk.Some? then {Break} else {}) + (if cnt.Some? then {Continue} else {})
      + (if ret.Some? then {Return} else {}) + (if expr.Some? then {Case} else {})
    }

    lemma OpsSet(op: Op, v: nat)
      ensures Set(op, v).Ops() == Ops() + {op}
    {
    }
  }
  const NO_CTX := Ctx(None, None, None, None)

  // The mutable fields of a term: `next`, the has_last bit, the bits of `set_jumps` and
  // `the_sw_eq`; then the bits of the block that starts with the term.
  datatype Node = Node(next: Option<nat>, last: bool, jumps: set<Op>, expr: Option<nat>,
                       blockLast: bool, blockJumps: set<Op>)
  const FRESH := Node(None, false, {}, None, false, {})
  type Tab = map<nat, Node>

  function Get(tab: Tab, id: nat): Node { if id in tab then tab[id] else FRESH }

  // Where term `i` of a block goes when done, if the block itself goes to `k`.
  function NextOf(ss: seq<Term>, i: nat, k: Option<nat>): Option<nat>
    requires i < |ss|
  {
    if i + 1 < |ss| then Some(ss[i + 1].id) else k
  }

  // Where the body of a member of an if chain goes: behind the whole chain.
  function CloseOf(ss: seq<Term>, i: nat, k: Option<nat>): (r: Option<nat>)
    requires i < |ss|
    ensures k.Some? ==> r.Some?
    decreases |ss| - i
  {
    if i + 1 < |ss| then
      if ss[i + 1].ContinuesIf() then CloseOf(ss, i + 1, k) else Some(ss[i + 1].id)
    else k
  }

  // Jump targets inside the body of a condition that is followed by `nx`. A loop gives its
  // own; a switch gives its expression; nothing is propagated into the body of an hcase.
  function BodyCtx(t: Term, nx: Option<nat>, c: Ctx): Ctx
    requires t.Cond?
  {
    match t.oper
    case Hwhile => if nx.Some? then c.(brk := nx, cnt := Some(t.id)) else c.(brk := None, cnt := None)
    case Hfor => if nx.Some? then c.(brk := nx, cnt := Some(t.id)) else c.(brk := None, cnt := None)
    case Hswitch => c.(expr := if nx.Some? then Some(t.test) else None)
    case Hcase => NO_CTX
    case _ => c
  }

  // Where the body of a condition goes; the condition itself is followed by `nx`, its if
  // chain by `close` and its block by `k`.
  function BodyEnd(t: Term, nx: Option<nat>, close: Option<nat>, k: Option<nat>): Option<nat>
    requires t.Cond? && (t.oper.Hfor? ==> t.endEach != [])
  {
    match t.oper
    case Hwhile => if nx.Some? then Some(t.id) else None
    case Hfor => if nx.Some? then Some(t.endEach[0].id) else None
    case Hswitch => nx
    case Hcase => k
    case Hdefault => k
    case _ => close
  }

  // ---------------------------------------------------------------- with flags

  ghost predicate StT(tab: Tab, t: Term, nx: Option<nat>, close: Option<nat>, k: Option<nat>, c: Ctx)
    decreases t
  {
    var nd := Get(tab, t.id);
    match t
    case Act(_, _) => nd.next == nx
    case Call(_, _) => nd.next == nx
    case Ret(_) => nd.next == nx
    case Keyword(_, op) =>
      && nd.next == (if op != Case && c.At(op).Some? then c.At(op) else nx)
      && (op != Case ==> (op in nd.jumps <==> c.At(op).Some?))
    case Cond(_, oper, _, e, b) =>
      && (!oper.Hswitch? ==> nd.next == nx)
      && nd.jumps == c.Ops()
      && (t.InChain() ==> nd.last == close.Some?)
      && (oper.Hcase? || oper.Hdefault? ==> nd.last == k.Some?)
      && (oper.Hcase? ==> nd.expr == c.expr)
      && (oper.Hfor? ==> e != [] && StS(tab, e, if nx.Some? then Some(t.id) else None, NO_CTX))
      && StS(tab, b, BodyEnd(t, nx, close, k), BodyCtx(t, nx, c))
  }

  ghost predicate StS(tab: Tab, ss: seq<Term>, k: Option<nat>, c: Ctx)
    decreases ss
  {
    && |ss| > 0
    && Get(tab, ss[0].id).blockLast == k.Some?
    && Get(tab, ss[0].id).blockJumps == c.Ops()
    && forall i | 0 <= i < |ss| :: StT(tab, ss[i], NextOf(ss, i, k), CloseOf(ss, i, k), k, c)
  }

  // ---------------------------------------------------------------- frames

  // Equal as far as `t` is concerned: the flags of the block it starts do not count.
  ghost predicate SameT(a: Tab, b: Tab, t: Term) {
    && Get(a, t.id).(blockLast := false, blockJumps := {}) == Get(b, t.id).(blockLast := false, blockJumps := {})
    && forall id: nat | t.id < id < EndT(t) :: Get(a, id) == Get(b, id)
  }

  ghost predicate SameS(a: Tab, b: Tab, ss: seq<Term>)
    requires |ss| > 0
  {
    forall id: nat | ss[0].id <= id < EndS(ss) :: Get(a, id) == Get(b, id)
  }

  // Nothing changed outside the labels of a term (or the block flags at its label).
  ghost predicate OnlyT(a: Tab, b: Tab, t: Term) {
    && Get(a, t.id).blockLast == Get(b, t.id).blockLast
    && Get(a, t.id).blockJumps == Get(b, t.id).blockJumps
    && forall id: nat | !(t.id <= id < EndT(t)) :: Get(a, id) == Get(b, id)
  }

  ghost predicate OnlyS(a: Tab, b: Tab, ss: seq<Term>)
    requires |ss| > 0
  {
    forall id: nat | !(ss[0].id <= id < EndS(ss)) :: Get(a, id) == Get(b, id)
  }

  // The state of a term is in the fields of its own labels.
  lemma {:induction false} FrameT(a: Tab, b: Tab, t: Term, nx: Option<nat>, close: Option<nat>, k: Option<nat>, c: Ctx)
    requires NumT(t) && SameT(a, b, t) && StT(a, t, nx, close, k, c)
    ensures StT(b, t, nx, close, k, c)
    decreases t
  {
    EndAfterT(t);
    if t.Cond? {
      PartsInside(t);
      if t.oper.Hfor? { FrameS(a, b, t.endEach, if nx.Some? then Some(t.id) else None, NO_CTX); }
      FrameS(a, b, t.body, BodyEnd(t, nx, close, k), BodyCtx(t, nx, c));
    }
  }

  lemma {:induction false} FrameS(a: Tab, b: Tab, ss: seq<Term>, k: Option<nat>, c: Ctx)
    requires NumS(ss) && SameS(a, b, ss) && StS(a, ss, k, c)
    ensures StS(b, ss, k, c)
    decreases ss
  {
    EndAfterS(ss);
    assert Get(a, ss[0].id) == Get(b, ss[0].id);
    forall i | 0 <= i < |ss|
      ensures StT(b, ss[i], NextOf(ss, i, k), CloseOf(ss, i, k), k, c)
    {
      assert Get(a, ss[i].id) == Get(b, ss[i].id);
      FrameT(a, b, ss[i], NextOf(ss, i, k), CloseOf(ss, i, k), k, c);
    }
  }

  // What happens inside term `i` of a block does not touch the other terms.
  lemma {:induction false} OthersSame(a: Tab, b: Tab, ss: seq<Term>, i: nat)
    requires NumS(ss) && i < |ss| && OnlyT(a, b, ss[i])
    ensures forall j | 0 <= j < |ss| && j != i :: SameT(a, b, ss[j])
    ensures OnlyS(a, b, ss)
    ensures Get(a, ss[0].id).blockLast == Get(b, ss[0].id).blockLast
    ensures Get(a, ss[0].id).blockJumps == Get(b, ss[0].id).blockJumps
  {
    EndAfterS(ss);
    forall j | 0 <= j < |ss| && j != i ensures SameT(a, b, ss[j]) {
      assert j < i ==> EndT(ss[j]) <= ss[i].id;
      assert i < j ==> EndT(ss[i]) <= ss[j].id;
    }
  }

  // The flags of a block can be set without touching its terms.
  ghost predicate FlagsOnly(a: Tab, b: Tab, id: nat, nd: Node) {
    && b == a[id := nd]
    && nd.(blockLast := false, blockJumps := {}) == Get(a, id).(blockLast := false, blockJumps := {})
  }

  lemma {:induction false} FlagsSame(a: Tab, b: Tab, ss: seq<Term>, nd: Node)
    requires NumS(ss) && FlagsOnly(a, b, ss[0].id, nd)
    ensures forall j | 0 <= j < |ss| :: SameT(a, b, ss[j])
    ensures OnlyS(a, b, ss)
  {
    EndAfterS(ss);
    forall j | 0 <= j < |ss| ensures SameT(a, b, ss[j]) {
      assert ss[0].id <= ss[j].id && (0 < j ==> EndT(ss[0]) <= ss[j].id);
    }
  }

  // A condition: what its own node and its parts say.
  lemma {:induction false} CondParts(tab: Tab, t: Term, nx: Option<nat>, close: Option<nat>, k: Option<nat>, c: Ctx)
    requires t.Cond? && NumT(t) && StT(tab, t, nx, close, k, c)
    ensures NumS(t.body) && t.id < t.body[0].id < EndS(t.body) == EndT(t)
    ensures StS(tab, t.body, BodyEnd(t, nx, close, k), BodyCtx(t, nx, c))
    ensures Get(tab, t.id).jumps == c.Ops()
    ensures t.oper.Hfor? ==>
      && NumS(t.endEach) && t.id < t.endEach[0].id < EndS(t.endEach) <= t.body[0].id
      && StS(tab, t.endEach, if nx.Some? then Some(t.id) else None, NO_CTX)
  {
    PartsInside(t);
  }

  // Only the own node of a condition was assigned.
  lemma {:induction false} OwnNode(a: Tab, b: Tab, t: Term, nd: Node)
    requires t.Cond? && NumT(t) && b == a[t.id := nd]
    requires nd.blockLast == Get(a, t.id).blockLast && nd.blockJumps == Get(a, t.id).blockJumps
    ensures NumS(t.body) && SameS(a, b, t.body)
    ensures t.oper.Hfor? ==> NumS(t.endEach) && SameS(a, b, t.endEach)
    ensures OnlyT(a, b, t)
  {
    PartsInside(t);
  }

  // Only the body of a condition changed.
  lemma {:induction false} BodyOnly(a: Tab, b: Tab, t: Term)
    requires t.Cond? && NumT(t) && t.body != [] && OnlyS(a, b, t.body)
    ensures Get(a, t.id) == Get(b, t.id) && OnlyT(a, b, t)
    ensures t.oper.Hfor? ==> NumS(t.endEach) && SameS(a, b, t.endEach)
  {
    PartsInside(t);
  }

  // What lies behind a condition matters only to the kinds that look at it.
  lemma {:induction false} Irrelevant(tab: Tab, t: Term, nx: Option<nat>, close: Option<nat>, close': Option<nat>,
                                      k: Option<nat>, k': Option<nat>, c: Ctx)
    requires StT(tab, t, nx, close, k, c)
    requires t.InChain() ==> close == close'
    requires t.Cond? && (t.oper.Hcase? || t.oper.Hdefault?) ==> k == k'
    ensures StT(tab, t, nx, close', k', c)
  {
  }

  // ---------------------------------------------------------------- ends of if chains

  lemma {:induction false} CloseKnown(ss: seq<Term>, i: nat, k: nat)
    requires i < |ss|
    ensures CloseOf(ss, i, None).Some? ==> CloseOf(ss, i, Some(k)) == CloseOf(ss, i, None)
    ensures CloseOf(ss, i, None).None? <==> forall j | i < j < |ss| :: ss[j].ContinuesIf()
    ensures CloseOf(ss, i, None).None? ==> CloseOf(ss, i, Some(k)) == Some(k)
    decreases |ss| - i
  {
    if i + 1 < |ss| && ss[i + 1].ContinuesIf() { CloseKnown(ss, i + 1, k); }
  }

  // Adding a term to a block resolves what was open, unless it continues an if chain.
  lemma {:induction false} CloseAppend(ss: seq<Term>, t: Term, i: nat)
    requires i < |ss|
    ensures CloseOf(ss + [t], i, None) == CloseOf(ss, i, if t.ContinuesIf() then None else Some(t.id))
    decreases |ss| - i
  {
    var st := ss + [t];
    if i + 1 < |ss| {
      assert st[i + 1] == ss[i + 1];
      if ss[i + 1].ContinuesIf() { CloseAppend(ss, t, i + 1); }
    } else {
      assert st[i + 1] == t;
      if t.ContinuesIf() { assert CloseOf(st, i + 1, None) == None; }
    }
  }
}
