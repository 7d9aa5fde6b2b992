/** The checks that the linker makes itself. */
module HlangChecks {
  import opened Options
  import opened HlangTerms
  import opened HlangLinks
  import opened HlangPasses
  import opened HlangBuild

  // The checks that hlang.cpp itself makes while it links a method (its HL_CK macro stops the
  // program when one fails), along the calls of the passes: no plain term is linked twice,
  // the `next` of an open member of an if chain is set and is a condition, and no hcase gets
  // a second switch expression. `MethodLinksSafely` says that none ever fails.

  ghost predicate JumpsTOk(tab: Tab, t: Term, op: Op, v: nat)
    decreases t, 0
  {
    var nd := Get(tab, t.id);
    t.Cond? && op !in nd.jumps ==>
      if t.oper.Hcase? then op == Case ==> nd.expr.None?
      else JumpsSOk(tab[t.id := nd.(jumps := nd.jumps + {op})], t.body, op, v)
  }

  ghost predicate JumpsSOk(tab: Tab, ss: seq<Term>, op: Op, v: nat)
    decreases ss, |ss| + 1
  {
    ss != [] ==>
      var nd := Get(tab, ss[0].id);
      op !in nd.blockJumps ==> JumpsFromOk(tab[ss[0].id := nd.(blockJumps := nd.blockJumps + {op})], ss, 0, op, v)
  }

  ghost predicate JumpsFromOk(tab: Tab, ss: seq<Term>, i: nat, op: Op, v: nat)
    requires i <= |ss|
    decreases ss, |ss| - i
  {
    i < |ss| ==> JumpsTOk(tab, ss[i], op, v) && JumpsFromOk(JumpsT(tab, ss[i], op, v), ss, i + 1, op, v)
  }

  // Both jump targets of a loop body.
  ghost predicate LoopJumpsOk(tab: Tab, ss: seq<Term>, brk: nat, cnt: nat) {
    JumpsSOk(tab, ss, Break, brk) && JumpsSOk(JumpsS(tab, ss, Break, brk), ss, Continue, cnt)
  }

  ghost predicate NextTOk(tab: Tab, t: Term, nxt: nat)
    decreases t, 0, 0
  {
    var own := tab[t.id := Get(tab, t.id).(next := Some(nxt))];
    if !t.Cond? then Get(tab, t.id).next.None? else
      match t.oper
      case Hfor =>
        && t.endEach != []
        && LastSOk(own, t.endEach, t.id)
        && var e := LastS(own, t.endEach, t.id);
        && LastSOk(e, t.body, t.endEach[0].id)
        && LoopJumpsOk(LastS(e, t.body, t.endEach[0].id), t.body, nxt, t.id)
      case Hwhile => LastSOk(own, t.body, t.id) && LoopJumpsOk(LastS(own, t.body, t.id), t.body, nxt, t.id)
      case Hswitch => LastSOk(tab, t.body, nxt) && JumpsSOk(LastS(tab, t.body, nxt), t.body, Case, t.test)
      case _ => true
  }

  ghost predicate LastSOk(tab: Tab, ss: seq<Term>, nxt: nat)
    decreases ss, 3, 0
  {
    && ss != []
    && var nd := Get(tab, ss[0].id);
    !nd.blockLast ==>
      var own := tab[ss[0].id := nd.(blockLast := true)];
      NextTOk(own, ss[|ss| - 1], nxt) && LastFromOk(NextT(own, ss[|ss| - 1], nxt), ss, 0, nxt)
  }

  ghost predicate LastFromOk(tab: Tab, ss: seq<Term>, i: nat, nxt: nat)
    requires i <= |ss|
    decreases ss, 2, |ss| - i
  {
    i < |ss| ==> LastTOk(tab, ss, i, nxt) && LastFromOk(LastT(tab, ss, i, nxt), ss, i + 1, nxt)
  }

  ghost predicate LastTOk(tab: Tab, ss: seq<Term>, i: nat, nxt: nat)
    requires i < |ss|
    decreases ss, 1, |ss| - i
  {
    var t := ss[i];
    var nd := Get(tab, t.id);
    t.Cond? && !nd.last && !t.oper.Hwhile? && !t.oper.Hfor? ==>
      var own := tab[t.id := nd.(last := true)];
      && LastSOk(own, t.body, nxt)
      && (t.InChain() && nd.next != Some(nxt) ==>
            && i + 1 < |ss| && nd.next == Some(ss[i + 1].id) && ss[i + 1].Cond?
            && LastTOk(LastS(own, t.body, nxt), ss, i + 1, nxt))
  }

  ghost predicate BuildTOk(tab: Tab, t: Term)
    decreases t, 0
  {
    t.Cond? ==>
      && (t.oper.Hfor? ==> BuildSOk(tab, t.endEach))
      && BuildSOk(if t.oper.Hfor? then BuildS(tab, t.endEach) else tab, t.body)
  }

  ghost predicate BuildSOk(tab: Tab, ss: seq<Term>)
    decreases ss, |ss| + 1
  {
    ss != [] ==>
      BuildTOk(tab, ss[0]) && BuildFromOk(BuildT(tab, ss[0]), ss, 1, if ss[0].IsHif() then Some(0) else None)
  }

  ghost predicate BuildFromOk(tab: Tab, ss: seq<Term>, i: nat, first: Option<nat>)
    requires 0 < i <= |ss| && (first.Some? ==> first.value < i)
    decreases ss, |ss| - i
  {
    i < |ss| ==>
      && BuildTOk(tab, ss[i])
      && AppendOk(BuildT(tab, ss[i]), ss[..i], ss[i], first)
      && BuildFromOk(Append(BuildT(tab, ss[i]), ss[..i], ss[i], first), ss, i + 1, NextFirst(ss[i], i, first))
  }

  ghost predicate AppendOk(tab: Tab, ss: seq<Term>, t: Term, first: Option<nat>)
    requires |ss| > 0 && (first.Some? ==> first.value < |ss|)
  {
    && NextTOk(tab, ss[|ss| - 1], t.id)
    && (first.Some? && !t.ContinuesIf() ==> LastTOk(NextT(tab, ss[|ss| - 1], t.id), ss, first.value, t.id))
  }

  ghost predicate BuildMethodOk(tab: Tab, body: seq<Term>, ret: nat) {
    var ss := body + [Ret(ret)];
    BuildSOk(tab, ss) && JumpsSOk(BuildS(tab, ss), ss, Return, ret)
  }

  // ---------------------------------------------------------------- set_jumps

  lemma {:induction false} JumpsTSafe(tab: Tab, t: Term, nx: Option<nat>, close: Option<nat>,
                                      k: Option<nat>, c: Ctx, op: Op, v: nat)
    requires NumT(t) && StT(tab, t, nx, close, k, c) && c.At(op).None?
    requires op != Return ==> nx.Some? && k.Some? && close.Some?
    ensures JumpsTOk(tab, t, op, v)
    decreases t, 0
  {
    if t.Cond? && !t.oper.Hcase? {
      var nd := Get(tab, t.id);
      nd := nd.(jumps := nd.jumps + {op});
      var be, bc := BodyEnd(t, nx, close, k), BodyCtx(t, nx, c);
      CondParts(tab, t, nx, close, k, c);
      OwnNode(tab, tab[t.id := nd], t, nd);
      FrameS(tab, tab[t.id := nd], t.body, be, bc);
      JumpsSSafe(tab[t.id := nd], t.body, be, bc, op, v);
    }
  }

  lemma {:induction false} JumpsSSafe(tab: Tab, ss: seq<Term>, k: Option<nat>, c: Ctx, op: Op, v: nat)
    requires NumS(ss) && StS(tab, ss, k, c) && (c.At(op).None? && op != Return ==> k.Some?)
    ensures JumpsSOk(tab, ss, op, v)
    decreases ss, |ss| + 1
  {
    if c.At(op).None? {
      var nd := Get(tab, ss[0].id);
      nd := nd.(blockJumps := nd.blockJumps + {op});
      var mid := tab[ss[0].id := nd];
      FlagsKeep(tab, mid, ss, nd, k, c);
      MidJumpsStart(mid, ss, k, c.Set(op, v), c);
      JumpsFromSafe(mid, ss, 0, k, c, op, v);
    }
  }

  lemma {:induction false} JumpsFromSafe(tab: Tab, ss: seq<Term>, i: nat, k: Option<nat>, c: Ctx, op: Op, v: nat)
    requires NumS(ss) && i <= |ss| && c.At(op).None? && (op != Return ==> k.Some?)
    requires MidJumps(tab, ss, i, k, c.Set(op, v), c)
    ensures JumpsFromOk(tab, ss, i, op, v)
    decreases ss, |ss| - i
  {
    if i < |ss| {
      JumpsTSafe(tab, ss[i], NextOf(ss, i, k), CloseOf(ss, i, k), k, c, op, v);
      JumpsTCorrect(tab, ss[i], NextOf(ss, i, k), CloseOf(ss, i, k), k, c, op, v);
      MidJumpsStep(tab, JumpsT(tab, ss[i], op, v), ss, i, k, c.Set(op, v), c);
      JumpsFromSafe(JumpsT(tab, ss[i], op, v), ss, i + 1, k, c, op, v);
    }
  }

  // A loop body whose end is already linked.
  lemma {:induction false} LoopJumpsSafe(tab: Tab, ss: seq<Term>, k: nat, brk: nat, cnt: nat)
    requires NumS(ss) && StS(tab, ss, Some(k), NO_CTX)
    ensures LoopJumpsOk(tab, ss, brk, cnt)
  {
    JumpsSSafe(tab, ss, Some(k), NO_CTX, Break, brk);
    JumpsSCorrect(tab, ss, Some(k), NO_CTX, Break, brk);
    JumpsSSafe(JumpsS(tab, ss, Break, brk), ss, Some(k), NO_CTX.Set(Break, brk), Continue, cnt);
  }

  // ---------------------------------------------------------------- set_next, set_last

  // A term whose outside is unknown has no `next` yet, and its parts link without a failed check.
  lemma {:induction false} NextTSafe(tab: Tab, t: Term, nxt: nat)
    requires NumT(t) && StT(tab, t, None, None, None, NO_CTX) && OutsideT(nxt, t)
    ensures NextTOk(tab, t, nxt)
    decreases t, 1, 0
  {
    if t.Cond? {
      var nd := Get(tab, t.id).(next := Some(nxt));
      var own := tab[t.id := nd];
      CondParts(tab, t, None, None, None, NO_CTX);
      OwnNode(tab, own, t, nd);
      FrameS(tab, own, t.body, BodyEnd(t, None, None, None), BodyCtx(t, None, NO_CTX));
      match t.oper
      case Hfor =>
        FrameS(tab, own, t.endEach, None, NO_CTX);
        ForSafe(own, t, nxt);
      case Hwhile =>
        LastSSafe(own, t.body, t.id);
        LastSCorrect(own, t.body, t.id);
        LoopJumpsSafe(LastS(own, t.body, t.id), t.body, t.id, nxt, t.id);
      case Hswitch =>
        LastSSafe(tab, t.body, nxt);
        LastSCorrect(tab, t.body, nxt);
        JumpsSSafe(LastS(tab, t.body, nxt), t.body, Some(nxt), NO_CTX, Case, t.test);
      case _ =>
    }
  }

  lemma {:induction false} ForSafe(own: Tab, t: Term, nxt: nat)
    requires t.Cond? && t.oper.Hfor? && NumT(t)
    requires NumS(t.body) && StS(own, t.body, None, NO_CTX)
    requires NumS(t.endEach) && StS(own, t.endEach, None, NO_CTX)
    ensures LastSOk(own, t.endEach, t.id)
    ensures var e := LastS(own, t.endEach, t.id);
            LastSOk(e, t.body, t.endEach[0].id) && LoopJumpsOk(LastS(e, t.body, t.endEach[0].id), t.body, nxt, t.id)
    decreases t, 0, 0
  {
    PartsInside(t);
    var e, n := LastS(own, t.endEach, t.id), t.endEach[0].id;
    LastSSafe(own, t.endEach, t.id);
    LastSCorrect(own, t.endEach, t.id);
    FrameS(own, e, t.body, None, NO_CTX);
    LastSSafe(e, t.body, n);
    LastSCorrect(e, t.body, n);
    LoopJumpsSafe(LastS(e, t.body, n), t.body, n, nxt, t.id);
  }

  lemma {:induction false} LastSSafe(tab: Tab, ss: seq<Term>, nxt: nat)
    requires NumS(ss) && StS(tab, ss, None, NO_CTX) && OutsideS(nxt, ss)
    ensures LastSOk(tab, ss, nxt)
    decreases ss, 3, 0
  {
    var nd := Get(tab, ss[0].id);
    nd := nd.(blockLast := true);
    var own, last := tab[ss[0].id := nd], ss[|ss| - 1];
    FlagsKeep(tab, own, ss, nd, None, NO_CTX);
    EndAfterS(ss);
    NextTSafe(own, last, nxt);
    NextTCorrect(own, last, nxt);
    EndLinks(own, NextT(own, last, nxt), ss, nxt);
    MidLastStart(NextT(own, last, nxt), ss, nxt);
    LastFromSafe(NextT(own, last, nxt), ss, 0, nxt, false);
  }

  lemma {:induction false} LastFromSafe(tab: Tab, ss: seq<Term>, i: nat, nxt: nat, walked: bool)
    requires NumS(ss) && i <= |ss| && OutsideS(nxt, ss) && MidLast(tab, ss, i, nxt, walked)
    ensures LastFromOk(tab, ss, i, nxt)
    decreases ss, 2, |ss| - i + 1
  {
    if i < |ss| {
      if ss[i].InChain() && !walked && CloseOf(ss, i, None).None? {
        ChainTailOf(tab, ss, i, nxt);
        ChainSafe(tab, ss, i, nxt);
        MidLastChain(tab, ss, i, nxt);
        LastFromSafe(LastT(tab, ss, i, nxt), ss, i + 1, nxt, true);
      } else {
        CloseKnown(ss, i, nxt);
        OneSafe(tab, ss, i, nxt, CloseOf(ss, i, if walked then Some(nxt) else None));
        MidLastOther(tab, ss, i, nxt, walked);
        LastFromSafe(LastT(tab, ss, i, nxt), ss, i + 1, nxt, walked);
      }
    }
  }

  // Walking an open if chain, each `next` is the following member.
  lemma {:induction false} ChainSafe(tab: Tab, ss: seq<Term>, i: nat, nxt: nat)
    requires NumS(ss) && i < |ss| && OutsideS(nxt, ss) && ChainTail(tab, ss, i, nxt, None)
    ensures LastTOk(tab, ss, i, nxt)
    decreases ss, 1, |ss| - i
  {
    EndAfterS(ss);
    var t := ss[i];
    var nd := Get(tab, t.id).(last := true);
    var own := tab[t.id := nd];
    CondParts(tab, t, NextOf(ss, i, Some(nxt)), None, None, NO_CTX);
    OwnNode(tab, own, t, nd);
    FrameS(tab, own, t.body, None, NO_CTX);
    LastSSafe(own, t.body, nxt);
    LastSCorrect(own, t.body, nxt);
    if i + 1 < |ss| {
      var b := LastS(own, t.body, nxt);
      BodyOnly(own, b, t);
      OthersSame(tab, b, ss, i);
      forall j | i < j < |ss| ensures StT(b, ss[j], NextOf(ss, j, Some(nxt)), None, None, NO_CTX) {
        FrameT(tab, b, ss[j], NextOf(ss, j, Some(nxt)), None, None, NO_CTX);
      }
      ChainSafe(b, ss, i + 1, nxt);
    }
  }

  lemma {:induction false} OneSafe(tab: Tab, ss: seq<Term>, i: nat, nxt: nat, close: Option<nat>)
    requires NumS(ss) && i < |ss| && OutsideS(nxt, ss)
    requires StT(tab, ss[i], NextOf(ss, i, Some(nxt)), close, None, NO_CTX)
    requires ss[i].InChain() ==> close.Some?
    ensures LastTOk(tab, ss, i, nxt)
    decreases ss, 1, 0
  {
    EndAfterS(ss);
    var t := ss[i];
    if t.Cond? && !t.InChain() {
      var nx := NextOf(ss, i, Some(nxt));
      var nd := Get(tab, t.id).(last := true);
      var own := tab[t.id := nd];
      CondParts(tab, t, nx, close, None, NO_CTX);
      OwnNode(tab, own, t, nd);
      FrameS(tab, own, t.body, BodyEnd(t, nx, close, None), BodyCtx(t, nx, NO_CTX));
      if t.oper.Hcase? || t.oper.Hdefault? { LastSSafe(own, t.body, nxt); }
    }
  }

  // ---------------------------------------------------------------- building a method

  lemma {:induction false} BuildTSafe(tab: Tab, t: Term)
    requires NumT(t) && ShapeT(t) && FreshIn(tab, t.id, EndT(t))
    ensures BuildTOk(tab, t)
    decreases t, 0
  {
    if t.Cond? {
      EndAfterT(t);
      PartsInside(t);
      if t.oper.Hfor? {
        BuildSSafe(tab, t.endEach);
        BuildSCorrect(tab, t.endEach);
      }
      BuildSSafe(if t.oper.Hfor? then BuildS(tab, t.endEach) else tab, t.body);
    }
  }

  lemma {:induction false} BuildSSafe(tab: Tab, ss: seq<Term>)
    requires NumS(ss) && ShapeS(ss) && FreshIn(tab, ss[0].id, EndS(ss))
    ensures BuildSOk(tab, ss)
    decreases ss, |ss| + 1
  {
    EndAfterS(ss);
    BuildTSafe(tab, ss[0]);
    BuildTCorrect(tab, ss[0]);
    OpenOne(BuildT(tab, ss[0]), ss[0]);
    assert ss[..1] == [ss[0]];
    BuildFromSafe(BuildT(tab, ss[0]), ss, 1, if ss[0].IsHif() then Some(0) else None);
  }

  lemma {:induction false} BuildFromSafe(tab: Tab, ss: seq<Term>, i: nat, first: Option<nat>)
    requires NumS(ss) && ShapeS(ss) && 0 < i <= |ss| && (first.Some? ==> first.value < i)
    requires OpenS(tab, ss[..i], first) && FreshIn(tab, EndT(ss[i - 1]), EndS(ss))
    ensures BuildFromOk(tab, ss, i, first)
    decreases ss, |ss| - i
  {
    if i < |ss| {
      var p, t := ss[..i], ss[i];
      EndAfterS(ss);
      NumPrefix(ss, i);
      assert p[|p| - 1] == ss[i - 1] && p[0] == ss[0];
      BuildTSafe(tab, t);
      BuildTCorrect(tab, t);
      OpenFrame(tab, BuildT(tab, t), p, first);
      AppendSafe(BuildT(tab, t), p, t, first);
      BuildStep(tab, ss, i, first);
      BuildFromSafe(Append(BuildT(tab, t), p, t, first), ss, i + 1, NextFirst(t, i, first));
    }
  }

  lemma {:induction false} AppendSafe(tab: Tab, ss: seq<Term>, t: Term, first: Option<nat>)
    requires NumS(ss) && t.id == EndS(ss) && OpenS(tab, ss, first)
    ensures AppendOk(tab, ss, t, first)
  {
    EndAfterS(ss);
    var n := |ss| - 1;
    NextTSafe(tab, ss[n], t.id);
    if first.Some? && !t.ContinuesIf() {
      NextTCorrect(tab, ss[n], t.id);
      EndLinks(tab, NextT(tab, ss[n], t.id), ss, t.id);
      OpenTail(NextT(tab, ss[n], t.id), ss, t.id, first.value);
      ChainSafe(NextT(tab, ss[n], t.id), ss, first.value, t.id);
    }
  }

  // Whatever the operators can build is linked without a failed check.
  lemma {:induction false} MethodLinksSafely(tab: Tab, body: seq<Term>, ret: nat)
    requires ShapeS(body) && NumS(body) && ret == EndS(body) && FreshIn(tab, body[0].id, ret + 1)
    ensures BuildMethodOk(tab, body, ret)
  {
    var ss := body + [Ret(ret)];
    forall j | 0 < j < |ss| ensures ss[j].id == EndT(ss[j - 1]) {
      assert ss[j - 1] == body[j - 1];
    }
    assert ss[|ss| - 1] == Ret(ret) && ss[0] == body[0] && EndT(Ret(ret)) == ret + 1;
    assert NumS(ss);
    BuildSSafe(tab, ss);
    BuildSCorrect(tab, ss);
    JumpsSSafe(BuildS(tab, ss), ss, None, NO_CTX, Return, ret);
  }
}
