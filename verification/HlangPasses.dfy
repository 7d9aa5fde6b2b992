/**
  The linking passes of hlang.cpp as functions on the fields of the terms. The methods of
  `HlangLinker` update the fields as these functions say.
 */
module HlangPasses {
  import opened Options
  import opened HlangTerms
  import opened HlangLinks

  // ---------------------------------------------------------------- set_jumps

  // hc_term, hc_keyword, hc_case_term and hc_condition
  function JumpsT(tab: Tab, t: Term, op: Op, v: nat): Tab
    decreases t, 0
  {
    var nd := Get(tab, t.id);
    match t
    case Keyword(_, kop) =>
      if kop != op || op == Case || op in nd.jumps then tab
      else tab[t.id := nd.(next := Some(v), jumps := nd.jumps + {op})]
    case Cond(_, oper, _, _, body) =>
      if op in nd.jumps then tab
      else if oper.Hcase? then
        tab[t.id := nd.(jumps := nd.jumps + {op}, expr := if op == Case then Some(v) else nd.expr)]
      else
        JumpsS(tab[t.id := nd.(jumps := nd.jumps + {op})], body, op, v)
    case _ => tab
  }

  // hc_steps
  function JumpsS(tab: Tab, ss: seq<Term>, op: Op, v: nat): Tab
    decreases ss, |ss| + 1
  {
    if ss == [] then tab else
      var nd := Get(tab, ss[0].id);
      if op in nd.blockJumps then tab
      else JumpsFrom(tab[ss[0].id := nd.(blockJumps := nd.blockJumps + {op})], ss, 0, op, v)
  }

  function JumpsFrom(tab: Tab, ss: seq<Term>, i: nat, op: Op, v: nat): Tab
    requires i <= |ss|
    decreases ss, |ss| - i
  {
    if i == |ss| then tab else JumpsFrom(JumpsT(tab, ss[i], op, v), ss, i + 1, op, v)
  }

  ghost predicate AllT(tab: Tab, ss: seq<Term>, k: Option<nat>, c: Ctx) {
    forall j | 0 <= j < |ss| :: StT(tab, ss[j], NextOf(ss, j, k), CloseOf(ss, j, k), k, c)
  }

  // Setting the flags of a block leaves the state of its terms.
  lemma {:induction false} FlagsKeep(a: Tab, b: Tab, ss: seq<Term>, nd: Node, k: Option<nat>, c: Ctx)
    requires NumS(ss) && StS(a, ss, k, c) && FlagsOnly(a, b, ss[0].id, nd)
    ensures AllT(b, ss, k, c) && OnlyS(a, b, ss)
  {
    FlagsSame(a, b, ss, nd);
    forall j | 0 <= j < |ss| ensures StT(b, ss[j], NextOf(ss, j, k), CloseOf(ss, j, k), k, c) {
      FrameT(a, b, ss[j], NextOf(ss, j, k), CloseOf(ss, j, k), k, c);
    }
  }

  // A block halfway through `set_jumps`: the context is `c1` for its first `i` terms.
  ghost predicate MidJumps(tab: Tab, ss: seq<Term>, i: nat, k: Option<nat>, c1: Ctx, c2: Ctx) {
    forall j | 0 <= j < |ss| ::
      StT(tab, ss[j], NextOf(ss, j, k), CloseOf(ss, j, k), k, if j < i then c1 else c2)
  }

  lemma {:induction false} MidJumpsStep(a: Tab, b: Tab, ss: seq<Term>, i: nat, k: Option<nat>, c1: Ctx, c2: Ctx)
    requires NumS(ss) && i < |ss| && MidJumps(a, ss, i, k, c1, c2) && OnlyT(a, b, ss[i])
    requires StT(b, ss[i], NextOf(ss, i, k), CloseOf(ss, i, k), k, c1)
    ensures MidJumps(b, ss, i + 1, k, c1, c2)
  {
    OthersSame(a, b, ss, i);
    forall j | 0 <= j < |ss| && j != i
      ensures StT(b, ss[j], NextOf(ss, j, k), CloseOf(ss, j, k), k, if j < i then c1 else c2)
    {
      FrameT(a, b, ss[j], NextOf(ss, j, k), CloseOf(ss, j, k), k, if j < i then c1 else c2);
    }
  }

  // How a new jump target of the surroundings reaches the body of a condition.
  lemma {:induction false} BodyCtxSet(t: Term, nx: Option<nat>, c: Ctx, op: Op, v: nat)
    requires t.Cond? && c.At(op).None? && (op != Return ==> nx.Some?)
    ensures var bc := BodyCtx(t, nx, c);
            BodyCtx(t, nx, c.Set(op, v)) ==
              if t.oper.Hcase? || bc.At(op).Some? then bc else bc.Set(op, v)
  {
  }

  lemma {:induction false} MidJumpsStart(tab: Tab, ss: seq<Term>, k: Option<nat>, c1: Ctx, c2: Ctx)
    requires AllT(tab, ss, k, c2)
    ensures MidJumps(tab, ss, 0, k, c1, c2)
  {
  }

  lemma {:induction false} MidJumpsEnd(tab: Tab, ss: seq<Term>, k: Option<nat>, c1: Ctx, c2: Ctx)
    requires |ss| > 0 && MidJumps(tab, ss, |ss|, k, c1, c2)
    requires Get(tab, ss[0].id).blockLast == k.Some? && Get(tab, ss[0].id).blockJumps == c1.Ops()
    ensures StS(tab, ss, k, c1)
  {
    forall j | 0 <= j < |ss| ensures StT(tab, ss[j], NextOf(ss, j, k), CloseOf(ss, j, k), k, c1) {
      assert StT(tab, ss[j], NextOf(ss, j, k), CloseOf(ss, j, k), k, if j < |ss| then c1 else c2);
    }
  }

  // A condition whose own node and whose body got a new jump target.
  lemma {:induction false} CondJumped(a: Tab, b: Tab, t: Term, nx: Option<nat>, close: Option<nat>,
                                      k: Option<nat>, c: Ctx, op: Op, v: nat)
    requires t.Cond? && NumT(t) && StT(a, t, nx, close, k, c)
    requires Get(b, t.id) == Get(a, t.id).(
                jumps := Get(a, t.id).jumps + {op},
                expr := if t.oper.Hcase? && op == Case then Some(v) else Get(a, t.id).expr)
    requires StS(b, t.body, BodyEnd(t, nx, close, k), BodyCtx(t, nx, c.Set(op, v)))
    requires t.oper.Hfor? ==> SameS(a, b, t.endEach)
    ensures StT(b, t, nx, close, k, c.Set(op, v))
  {
    c.OpsSet(op, v);
    if t.oper.Hfor? {
      FrameS(a, b, t.endEach, if nx.Some? then Some(t.id) else None, NO_CTX);
    }
  }

  lemma {:induction false} JumpsTCorrect(tab: Tab, t: Term, nx: Option<nat>, close: Option<nat>,
                                         k: Option<nat>, c: Ctx, op: Op, v: nat)
    requires NumT(t) && StT(tab, t, nx, close, k, c) && c.At(op).None?
    requires op != Return ==> nx.Some? && k.Some? && close.Some?
    ensures StT(JumpsT(tab, t, op, v), t, nx, close, k, c.Set(op, v))
    ensures OnlyT(tab, JumpsT(tab, t, op, v), t)
    decreases t, 0
  {
    if t.Cond? {
      var nd := Get(tab, t.id);
      nd := nd.(jumps := nd.jumps + {op}, expr := if t.oper.Hcase? && op == Case then Some(v) else nd.expr);
      var mid := tab[t.id := nd];
      var be, bc := BodyEnd(t, nx, close, k), BodyCtx(t, nx, c);
      CondParts(tab, t, nx, close, k, c);
      OwnNode(tab, mid, t, nd);
      FrameS(tab, mid, t.body, be, bc);
      BodyCtxSet(t, nx, c, op, v);
      if !t.oper.Hcase? {
        JumpsSCorrect(mid, t.body, be, bc, op, v);
        BodyOnly(mid, JumpsT(tab, t, op, v), t);
      }
      CondJumped(tab, JumpsT(tab, t, op, v), t, nx, close, k, c, op, v);
    } else {
      EndAfterT(t);
    }
  }

  // `set_jumps` gives a block its jump target, once.
  lemma {:induction false} JumpsSCorrect(tab: Tab, ss: seq<Term>, k: Option<nat>, c: Ctx, op: Op, v: nat)
    requires NumS(ss) && StS(tab, ss, k, c) && (c.At(op).None? && op != Return ==> k.Some?)
    ensures c.At(op).Some? ==> JumpsS(tab, ss, op, v) == tab
    ensures c.At(op).None? ==> StS(JumpsS(tab, ss, op, v), ss, k, c.Set(op, v))
    ensures OnlyS(tab, JumpsS(tab, ss, op, v), ss)
    decreases ss, |ss| + 1
  {
    if c.At(op).None? {
      c.OpsSet(op, v);
      var nd := Get(tab, ss[0].id);
      nd := nd.(blockJumps := nd.blockJumps + {op});
      var mid := tab[ss[0].id := nd];
      FlagsKeep(tab, mid, ss, nd, k, c);
      MidJumpsStart(mid, ss, k, c.Set(op, v), c);
      JumpsFromCorrect(mid, ss, 0, k, c, op, v);
      MidJumpsEnd(JumpsS(tab, ss, op, v), ss, k, c.Set(op, v), c);
    }
  }

  lemma {:induction false} JumpsFromCorrect(tab: Tab, ss: seq<Term>, i: nat, k: Option<nat>, c: Ctx, op: Op, v: nat)
    requires NumS(ss) && i <= |ss| && c.At(op).None? && (op != Return ==> k.Some?)
    requires MidJumps(tab, ss, i, k, c.Set(op, v), c)
    ensures MidJumps(JumpsFrom(tab, ss, i, op, v), ss, |ss|, k, c.Set(op, v), c)
    ensures OnlyS(tab, JumpsFrom(tab, ss, i, op, v), ss)
    ensures Get(tab, ss[0].id).blockLast == Get(JumpsFrom(tab, ss, i, op, v), ss[0].id).blockLast
    ensures Get(tab, ss[0].id).blockJumps == Get(JumpsFrom(tab, ss, i, op, v), ss[0].id).blockJumps
    decreases ss, |ss| - i
  {
    if i < |ss| {
      var b := JumpsT(tab, ss[i], op, v);
      JumpsTCorrect(tab, ss[i], NextOf(ss, i, k), CloseOf(ss, i, k), k, c, op, v);
      OthersSame(tab, b, ss, i);
      MidJumpsStep(tab, b, ss, i, k, c.Set(op, v), c);
      JumpsFromCorrect(b, ss, i + 1, k, c, op, v);
    }
  }

  // ---------------------------------------------------------------- set_next, set_last

  // hc_term and hc_condition
  function NextT(tab: Tab, t: Term, nxt: nat): Tab
    decreases t, 0, 0
  {
    var own := tab[t.id := Get(tab, t.id).(next := Some(nxt))];
    if !t.Cond? then own else
      match t.oper
      case Hfor =>
        if t.endEach == [] then own else
          var a := LastS(LastS(own, t.endEach, t.id), t.body, t.endEach[0].id);
          JumpsS(JumpsS(a, t.body, Break, nxt), t.body, Continue, t.id)
      case Hwhile =>
        JumpsS(JumpsS(LastS(own, t.body, t.id), t.body, Break, nxt), t.body, Continue, t.id)
      case Hswitch =>
        JumpsS(LastS(tab, t.body, nxt), t.body, Case, t.test)
      case _ => own
  }

  // hc_steps
  function LastS(tab: Tab, ss: seq<Term>, nxt: nat): Tab
    decreases ss, 3, 0
  {
    if ss == [] then tab else
      var nd := Get(tab, ss[0].id);
      if nd.blockLast then tab
      else LastFrom(NextT(tab[ss[0].id := nd.(blockLast := true)], ss[|ss| - 1], nxt), ss, 0, nxt)
  }

  function LastFrom(tab: Tab, ss: seq<Term>, i: nat, nxt: nat): Tab
    requires i <= |ss|
    decreases ss, 2, |ss| - i
  {
    if i == |ss| then tab else LastFrom(LastT(tab, ss, i, nxt), ss, i + 1, nxt)
  }

  // hc_term and hc_condition, for term `i` of a block. A member of an if chain goes on to
  // the term its `next` points to, which is the following one.
  function LastT(tab: Tab, ss: seq<Term>, i: nat, nxt: nat): Tab
    requires i < |ss|
    decreases ss, 1, |ss| - i
  {
    var t := ss[i];
    var nd := Get(tab, t.id);
    if !t.Cond? || nd.last then tab else
      var own := tab[t.id := nd.(last := true)];
      match t.oper
      case Hwhile => own
      case Hfor => own
      case Hswitch => LastS(own, t.body, nxt)
      case Hcase => LastS(own, t.body, nxt)
      case Hdefault => LastS(own, t.body, nxt)
      case _ =>
        var b := LastS(own, t.body, nxt);
        if nd.next != Some(nxt) && i + 1 < |ss| then LastT(b, ss, i + 1, nxt) else b
  }

  predicate OutsideT(n: nat, t: Term) { n < t.id || EndT(t) <= n }

  predicate OutsideS(n: nat, ss: seq<Term>)
    requires |ss| > 0
  {
    n < ss[0].id || EndS(ss) <= n
  }

  // A loop body gets its two jump targets.
  lemma {:induction false} LoopJumps(tab: Tab, ss: seq<Term>, k: nat, brk: nat, cnt: nat)
    requires NumS(ss) && StS(tab, ss, Some(k), NO_CTX)
    ensures var r := JumpsS(JumpsS(tab, ss, Break, brk), ss, Continue, cnt);
            StS(r, ss, Some(k), NO_CTX.(brk := Some(brk), cnt := Some(cnt))) && OnlyS(tab, r, ss)
  {
    JumpsSCorrect(tab, ss, Some(k), NO_CTX, Break, brk);
    JumpsSCorrect(JumpsS(tab, ss, Break, brk), ss, Some(k), NO_CTX.Set(Break, brk), Continue, cnt);
  }

  // `set_next` links a term, and with it the body of a loop or a switch.
  lemma {:induction false} NextTCorrect(tab: Tab, t: Term, nxt: nat)
    requires NumT(t) && StT(tab, t, None, None, None, NO_CTX) && OutsideT(nxt, t)
    ensures StT(NextT(tab, t, nxt), t, Some(nxt), None, None, NO_CTX)
    ensures OnlyT(tab, NextT(tab, t, nxt), t)
    decreases t, 1, 0
  {
    var nd := Get(tab, t.id).(next := Some(nxt));
    var own := tab[t.id := nd];
    if !t.Cond? {
      EndAfterT(t);
    } else {
      CondParts(tab, t, None, None, None, NO_CTX);
      OwnNode(tab, own, t, nd);
      FrameS(tab, own, t.body, BodyEnd(t, None, None, None), BodyCtx(t, None, NO_CTX));
      if t.oper.Hfor? { FrameS(tab, own, t.endEach, None, NO_CTX); }
      match t.oper
      case Hfor => NextFor(tab, t, nxt, own);
      case Hwhile => NextWhile(tab, t, nxt, own);
      case Hswitch =>
        var a := LastS(tab, t.body, nxt);
        LastSCorrect(tab, t.body, nxt);
        JumpsSCorrect(a, t.body, Some(nxt), NO_CTX, Case, t.test);
        BodyOnly(tab, NextT(tab, t, nxt), t);
      case _ =>
    }
  }

  lemma {:induction false} NextWhile(tab: Tab, t: Term, nxt: nat, own: Tab)
    requires t.Cond? && t.oper.Hwhile? && NumT(t) && StT(tab, t, None, None, None, NO_CTX)
    requires t.body != [] && NumS(t.body) && StS(own, t.body, None, NO_CTX) && OnlyT(tab, own, t)
    requires own == tab[t.id := Get(tab, t.id).(next := Some(nxt))]
    ensures StT(NextT(tab, t, nxt), t, Some(nxt), None, None, NO_CTX)
    ensures OnlyT(tab, NextT(tab, t, nxt), t)
    decreases t, 0, 0
  {
    PartsInside(t);
    var a := LastS(own, t.body, t.id);
    LastSCorrect(own, t.body, t.id);
    LoopJumps(a, t.body, t.id, nxt, t.id);
    BodyOnly(own, NextT(tab, t, nxt), t);
  }

  lemma {:induction false} NextFor(tab: Tab, t: Term, nxt: nat, own: Tab)
    requires t.Cond? && t.oper.Hfor? && NumT(t) && StT(tab, t, None, None, None, NO_CTX)
    requires t.body != [] && NumS(t.body) && StS(own, t.body, None, NO_CTX) && OnlyT(tab, own, t)
    requires t.endEach != [] && NumS(t.endEach) && StS(own, t.endEach, None, NO_CTX)
    requires own == tab[t.id := Get(tab, t.id).(next := Some(nxt))]
    ensures StT(NextT(tab, t, nxt), t, Some(nxt), None, None, NO_CTX)
    ensures OnlyT(tab, NextT(tab, t, nxt), t)
    decreases t, 0, 0
  {
    PartsInside(t);
    var e := LastS(own, t.endEach, t.id);
    LastSCorrect(own, t.endEach, t.id);
    FrameS(own, e, t.body, None, NO_CTX);
    var a := LastS(e, t.body, t.endEach[0].id);
    LastSCorrect(e, t.body, t.endEach[0].id);
    LoopJumps(a, t.body, t.endEach[0].id, nxt, t.id);
    FrameS(e, NextT(tab, t, nxt), t.endEach, Some(t.id), NO_CTX);
  }

  // ---------------------------------------------------------------- set_last of blocks

  // A block halfway through `set_last`; `walked` says that its open if chain is done.
  ghost predicate MidLast(tab: Tab, ss: seq<Term>, i: nat, nxt: nat, walked: bool) {
    forall j | 0 <= j < |ss| ::
      StT(tab, ss[j], NextOf(ss, j, Some(nxt)),
          CloseOf(ss, j, if j < i || walked then Some(nxt) else None),
          if j < i then Some(nxt) else None, NO_CTX)
  }

  // A block after `set_next` of its last term, its open if chain still open.
  ghost predicate EndLinked(tab: Tab, ss: seq<Term>, nxt: nat) {
    forall j | 0 <= j < |ss| ::
      StT(tab, ss[j], NextOf(ss, j, Some(nxt)), CloseOf(ss, j, None), None, NO_CTX)
  }

  // Terms `i` and later changed, but not the flags of the block at term `i`.
  ghost predicate OnlyFrom(a: Tab, b: Tab, ss: seq<Term>, i: nat)
    requires i < |ss|
  {
    && Get(a, ss[i].id).blockLast == Get(b, ss[i].id).blockLast
    && Get(a, ss[i].id).blockJumps == Get(b, ss[i].id).blockJumps
    && forall id: nat | !(ss[i].id <= id < EndS(ss)) :: Get(a, id) == Get(b, id)
  }

  lemma {:induction false} EarlierSame(a: Tab, b: Tab, ss: seq<Term>, i: nat)
    requires NumS(ss) && i < |ss| && OnlyFrom(a, b, ss, i)
    ensures forall j | 0 <= j < i :: SameT(a, b, ss[j])
  {
    EndAfterS(ss);
    forall j | 0 <= j < i ensures SameT(a, b, ss[j]) {
      assert EndT(ss[j]) <= ss[i].id;
    }
  }

  // The members from `i` to the end of the block, all of one if chain, are closed or open.
  ghost predicate ChainTail(tab: Tab, ss: seq<Term>, i: nat, nxt: nat, close: Option<nat>) {
    forall j | i <= j < |ss| :: ss[j].InChain() && StT(tab, ss[j], NextOf(ss, j, Some(nxt)), close, None, NO_CTX)
  }

  // `set_last` of a chain member closes it and all that follow.
  lemma {:induction false} ChainCorrect(tab: Tab, ss: seq<Term>, i: nat, nxt: nat)
    requires NumS(ss) && i < |ss| && OutsideS(nxt, ss) && ChainTail(tab, ss, i, nxt, None)
    ensures ChainTail(LastT(tab, ss, i, nxt), ss, i, nxt, Some(nxt))
    ensures OnlyFrom(tab, LastT(tab, ss, i, nxt), ss, i)
    decreases ss, 1, |ss| - i
  {
    EndAfterS(ss);
    var t := ss[i];
    var b := CloseMember(tab, ss, i, nxt);
    OthersSame(tab, b, ss, i);
    forall j | i < j < |ss| ensures StT(b, ss[j], NextOf(ss, j, Some(nxt)), None, None, NO_CTX) {
      FrameT(tab, b, ss[j], NextOf(ss, j, Some(nxt)), None, None, NO_CTX);
    }
    if i + 1 < |ss| {
      ChainCorrect(b, ss, i + 1, nxt);
      var r := LastT(b, ss, i + 1, nxt);
      assert SameT(b, r, t);
      FrameT(b, r, t, NextOf(ss, i, Some(nxt)), Some(nxt), None, NO_CTX);
    }
  }

  // One member of a chain.
  lemma {:induction false} CloseMember(tab: Tab, ss: seq<Term>, i: nat, nxt: nat) returns (b: Tab)
    requires NumS(ss) && i < |ss| && OutsideS(nxt, ss) && ss[i].InChain()
    requires StT(tab, ss[i], NextOf(ss, i, Some(nxt)), None, None, NO_CTX)
    ensures StT(b, ss[i], NextOf(ss, i, Some(nxt)), Some(nxt), None, NO_CTX)
    ensures OnlyT(tab, b, ss[i])
    ensures LastT(tab, ss, i, nxt) == if i + 1 < |ss| then LastT(b, ss, i + 1, nxt) else b
    decreases ss, 0, 0
  {
    EndAfterS(ss);
    var t := ss[i];
    var nx := NextOf(ss, i, Some(nxt));
    var nd := Get(tab, t.id).(last := true);
    var own := tab[t.id := nd];
    CondParts(tab, t, nx, None, None, NO_CTX);
    OwnNode(tab, own, t, nd);
    FrameS(tab, own, t.body, None, NO_CTX);
    LastSCorrect(own, t.body, nxt);
    b := LastS(own, t.body, nxt);
    BodyOnly(own, b, t);
    assert i + 1 < |ss| ==> nx != Some(nxt);
  }

  // `set_last` of a term that is no open chain member.
  lemma {:induction false} OneLast(tab: Tab, ss: seq<Term>, i: nat, nxt: nat, close: Option<nat>)
    requires NumS(ss) && i < |ss| && OutsideS(nxt, ss)
    requires StT(tab, ss[i], NextOf(ss, i, Some(nxt)), close, None, NO_CTX)
    requires ss[i].InChain() ==> close.Some?
    ensures StT(LastT(tab, ss, i, nxt), ss[i], NextOf(ss, i, Some(nxt)), close, Some(nxt), NO_CTX)
    ensures OnlyT(tab, LastT(tab, ss, i, nxt), ss[i])
    decreases ss, 1, 0
  {
    EndAfterS(ss);
    var t := ss[i];
    var nx := NextOf(ss, i, Some(nxt));
    if !t.Cond? || t.InChain() {
      Irrelevant(tab, t, nx, close, close, None, Some(nxt), NO_CTX);
    } else {
      var nd := Get(tab, t.id).(last := true);
      var own := tab[t.id := nd];
      CondParts(tab, t, nx, close, None, NO_CTX);
      OwnNode(tab, own, t, nd);
      FrameS(tab, own, t.body, BodyEnd(t, nx, close, None), BodyCtx(t, nx, NO_CTX));
      if t.oper.Hfor? { FrameS(tab, own, t.endEach, Some(t.id), NO_CTX); }
      if t.oper.Hcase? || t.oper.Hdefault? {
        LastSCorrect(own, t.body, nxt);
        BodyOnly(own, LastT(tab, ss, i, nxt), t);
      }
    }
  }

  lemma {:induction false} ChainTailOf(tab: Tab, ss: seq<Term>, i: nat, nxt: nat)
    requires i < |ss| && MidLast(tab, ss, i, nxt, false)
    requires ss[i].InChain() && CloseOf(ss, i, None).None?
    ensures ChainTail(tab, ss, i, nxt, None)
    ensures forall j | i <= j < |ss| :: CloseOf(ss, j, Some(nxt)) == Some(nxt)
  {
    CloseKnown(ss, i, nxt);
    forall j | i <= j < |ss|
      ensures ss[j].InChain() && CloseOf(ss, j, Some(nxt)) == Some(nxt)
      ensures StT(tab, ss[j], NextOf(ss, j, Some(nxt)), None, None, NO_CTX)
    {
      CloseKnown(ss, j, nxt);
    }
  }

  lemma {:induction false} MidLastChain(tab: Tab, ss: seq<Term>, i: nat, nxt: nat)
    requires NumS(ss) && i < |ss| && OutsideS(nxt, ss) && MidLast(tab, ss, i, nxt, false)
    requires ss[i].InChain() && CloseOf(ss, i, None).None?
    ensures MidLast(LastT(tab, ss, i, nxt), ss, i + 1, nxt, true)
    ensures OnlyFrom(tab, LastT(tab, ss, i, nxt), ss, i)
    decreases ss, 2, 0
  {
    ChainTailOf(tab, ss, i, nxt);
    ChainCorrect(tab, ss, i, nxt);
    MidLastWalked(tab, LastT(tab, ss, i, nxt), ss, i, nxt);
  }

  lemma {:induction false} MidLastWalked(tab: Tab, b: Tab, ss: seq<Term>, i: nat, nxt: nat)
    requires NumS(ss) && i < |ss| && MidLast(tab, ss, i, nxt, false) && OnlyFrom(tab, b, ss, i)
    requires ChainTail(b, ss, i, nxt, Some(nxt))
    requires forall j | i <= j < |ss| :: CloseOf(ss, j, Some(nxt)) == Some(nxt)
    ensures MidLast(b, ss, i + 1, nxt, true)
  {
    EarlierSame(tab, b, ss, i);
    forall j | 0 <= j < |ss|
      ensures StT(b, ss[j], NextOf(ss, j, Some(nxt)), CloseOf(ss, j, Some(nxt)),
                  if j < i + 1 then Some(nxt) else None, NO_CTX)
    {
      var nx := NextOf(ss, j, Some(nxt));
      if j < i {
        FrameT(tab, b, ss[j], nx, CloseOf(ss, j, Some(nxt)), Some(nxt), NO_CTX);
      } else {
        Irrelevant(b, ss[j], nx, Some(nxt), Some(nxt), None, Some(nxt), NO_CTX);
      }
    }
  }

  lemma {:induction false} MidLastOther(tab: Tab, ss: seq<Term>, i: nat, nxt: nat, walked: bool)
    requires NumS(ss) && i < |ss| && OutsideS(nxt, ss) && MidLast(tab, ss, i, nxt, walked)
    requires ss[i].InChain() ==> walked || CloseOf(ss, i, None).Some?
    ensures MidLast(LastT(tab, ss, i, nxt), ss, i + 1, nxt, walked)
    ensures OnlyT(tab, LastT(tab, ss, i, nxt), ss[i])
    decreases ss, 2, 0
  {
    var close := CloseOf(ss, i, if walked then Some(nxt) else None);
    CloseKnown(ss, i, nxt);
    OneLast(tab, ss, i, nxt, close);
    var b := LastT(tab, ss, i, nxt);
    Irrelevant(b, ss[i], NextOf(ss, i, Some(nxt)), close, CloseOf(ss, i, Some(nxt)), Some(nxt), Some(nxt), NO_CTX);
    OthersSame(tab, b, ss, i);
    forall j | 0 <= j < |ss| && j != i
      ensures StT(b, ss[j], NextOf(ss, j, Some(nxt)),
                  CloseOf(ss, j, if j < i + 1 || walked then Some(nxt) else None),
                  if j < i + 1 then Some(nxt) else None, NO_CTX)
    {
      FrameT(tab, b, ss[j], NextOf(ss, j, Some(nxt)),
             CloseOf(ss, j, if j < i || walked then Some(nxt) else None),
             if j < i then Some(nxt) else None, NO_CTX);
    }
  }

  lemma {:induction false} LastFromCorrect(tab: Tab, ss: seq<Term>, i: nat, nxt: nat, walked: bool)
    requires NumS(ss) && i <= |ss| && OutsideS(nxt, ss) && MidLast(tab, ss, i, nxt, walked)
    ensures MidLast(LastFrom(tab, ss, i, nxt), ss, |ss|, nxt, true)
    ensures OnlyS(tab, LastFrom(tab, ss, i, nxt), ss)
    ensures Get(tab, ss[0].id).blockLast == Get(LastFrom(tab, ss, i, nxt), ss[0].id).blockLast
    ensures Get(tab, ss[0].id).blockJumps == Get(LastFrom(tab, ss, i, nxt), ss[0].id).blockJumps
    decreases ss, 2, |ss| - i + 1
  {
    if i < |ss| {
      EndAfterS(ss);
      var b := LastT(tab, ss, i, nxt);
      if ss[i].InChain() && !walked && CloseOf(ss, i, None).None? {
        MidLastChain(tab, ss, i, nxt);
        LastFromCorrect(b, ss, i + 1, nxt, true);
      } else {
        MidLastOther(tab, ss, i, nxt, walked);
        OthersSame(tab, b, ss, i);
        LastFromCorrect(b, ss, i + 1, nxt, walked);
      }
    } else {
      forall j | 0 <= j < |ss|
        ensures StT(tab, ss[j], NextOf(ss, j, Some(nxt)), CloseOf(ss, j, Some(nxt)), Some(nxt), NO_CTX)
      {
        assert StT(tab, ss[j], NextOf(ss, j, Some(nxt)),
                   CloseOf(ss, j, if j < i || walked then Some(nxt) else None),
                   if j < i then Some(nxt) else None, NO_CTX);
      }
    }
  }

  // `set_last` links a block whose end was open to what follows it.
  lemma {:induction false} LastSCorrect(tab: Tab, ss: seq<Term>, nxt: nat)
    requires NumS(ss) && StS(tab, ss, None, NO_CTX) && OutsideS(nxt, ss)
    ensures StS(LastS(tab, ss, nxt), ss, Some(nxt), NO_CTX)
    ensures OnlyS(tab, LastS(tab, ss, nxt), ss)
    decreases ss, 3, 0
  {
    var nd := Get(tab, ss[0].id);
    nd := nd.(blockLast := true);
    var own := tab[ss[0].id := nd];
    FlagsKeep(tab, own, ss, nd, None, NO_CTX);
    var last := ss[|ss| - 1];
    var a := NextT(own, last, nxt);
    EndAfterS(ss);
    NextTCorrect(own, last, nxt);
    EndLinks(own, a, ss, nxt);
    MidLastStart(a, ss, nxt);
    LastFromCorrect(a, ss, 0, nxt, false);
    LastEnd(LastS(tab, ss, nxt), ss, nxt);
  }

  lemma {:induction false} EndLinks(own: Tab, a: Tab, ss: seq<Term>, nxt: nat)
    requires NumS(ss) && AllT(own, ss, None, NO_CTX) && OnlyT(own, a, ss[|ss| - 1])
    requires StT(a, ss[|ss| - 1], Some(nxt), None, None, NO_CTX)
    ensures EndLinked(a, ss, nxt) && OnlyS(own, a, ss)
    ensures Get(own, ss[0].id).blockLast == Get(a, ss[0].id).blockLast
    ensures Get(own, ss[0].id).blockJumps == Get(a, ss[0].id).blockJumps
  {
    OthersSame(own, a, ss, |ss| - 1);
    forall j | 0 <= j < |ss|
      ensures StT(a, ss[j], NextOf(ss, j, Some(nxt)), CloseOf(ss, j, None), None, NO_CTX)
    {
      if j < |ss| - 1 {
        FrameT(own, a, ss[j], NextOf(ss, j, None), CloseOf(ss, j, None), None, NO_CTX);
      }
    }
  }

  lemma {:induction false} MidLastStart(tab: Tab, ss: seq<Term>, nxt: nat)
    requires EndLinked(tab, ss, nxt)
    ensures MidLast(tab, ss, 0, nxt, false)
  {
  }

  lemma {:induction false} LastEnd(tab: Tab, ss: seq<Term>, nxt: nat)
    requires |ss| > 0 && MidLast(tab, ss, |ss|, nxt, true)
    requires Get(tab, ss[0].id).blockLast && Get(tab, ss[0].id).blockJumps == {}
    ensures StS(tab, ss, Some(nxt), NO_CTX)
  {
    forall j | 0 <= j < |ss|
      ensures StT(tab, ss[j], NextOf(ss, j, Some(nxt)), CloseOf(ss, j, Some(nxt)), Some(nxt), NO_CTX)
    {
      assert StT(tab, ss[j], NextOf(ss, j, Some(nxt)), CloseOf(ss, j, if j < |ss| || true then Some(nxt) else None),
                 if j < |ss| then Some(nxt) else None, NO_CTX);
    }
  }
}
