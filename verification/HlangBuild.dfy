/**
  How the operators of hlang.cpp call the linking passes while they build a method body:
  each operand is built first, then the comma operator links the last term of the block to
  the new one and closes the if chain that the new term ends.
 */
module HlangBuild {
  import opened Options
  import opened HlangTerms
  import opened HlangLinks
  import opened HlangPasses

  // The operands of a term.
  function BuildT(tab: Tab, t: Term): Tab
    decreases t, 0
  {
    if !t.Cond? then tab else
      BuildS(if t.oper.Hfor? then BuildS(tab, t.endEach) else tab, t.body)
  }

  // hc_term::to_steps, then one append_term for each further term.
  function BuildS(tab: Tab, ss: seq<Term>): Tab
    decreases ss, |ss| + 1
  {
    if ss == [] then tab else
      BuildFrom(BuildT(tab, ss[0]), ss, 1, if ss[0].IsHif() then Some(0) else None)
  }

  // append_term and set_back_next, for the terms from `i` on. `first` is first_if.
  function BuildFrom(tab: Tab, ss: seq<Term>, i: nat, first: Option<nat>): Tab
    requires 0 < i <= |ss| && (first.Some? ==> first.value < i)
    decreases ss, |ss| - i
  {
    if i == |ss| then tab else
      var a := Append(BuildT(tab, ss[i]), ss[..i], ss[i], first);
      BuildFrom(a, ss, i + 1, NextFirst(ss[i], i, first))
  }

  function Append(tab: Tab, ss: seq<Term>, t: Term, first: Option<nat>): Tab
    requires |ss| > 0 && (first.Some? ==> first.value < |ss|)
  {
    var a := NextT(tab, ss[|ss| - 1], t.id);
    if first.Some? && !t.ContinuesIf() then LastT(a, ss, first.value, t.id) else a
  }

  function NextFirst(t: Term, i: nat, first: Option<nat>): Option<nat> {
    if t.IsHif() then Some(i) else if !t.ContinuesIf() then None else first
  }

  // hmethod_def_base: the return step ends the body, and hreturn jumps to it.
  function BuildMethod(tab: Tab, body: seq<Term>, ret: nat): Tab {
    var ss := body + [Ret(ret)];
    JumpsS(BuildS(tab, ss), ss, Return, ret)
  }

  // ---------------------------------------------------------------- correctness

  ghost predicate FreshIn(tab: Tab, lo: nat, hi: nat) {
    forall id: nat | lo <= id < hi :: Get(tab, id) == FRESH
  }

  // A block whose last term is not linked yet, and its first_if.
  ghost predicate OpenS(tab: Tab, ss: seq<Term>, first: Option<nat>) {
    && |ss| > 0
    && !Get(tab, ss[0].id).blockLast && Get(tab, ss[0].id).blockJumps == {}
    && AllT(tab, ss, None, NO_CTX)
    && FirstOk(ss, first)
  }

  // first_if is the start of the if chain at the end of the block, if there is one.
  ghost predicate FirstOk(ss: seq<Term>, first: Option<nat>)
    requires |ss| > 0
  {
    match first
    case None => !ss[|ss| - 1].InChain()
    case Some(f) => f < |ss| && ss[f].IsHif() && CloseOf(ss, f, None).None?
  }

  // Labels stay with a block when its end is cut off.
  lemma {:induction false} NumPrefix(ss: seq<Term>, i: nat)
    requires NumS(ss) && 0 < i <= |ss|
    ensures NumS(ss[..i]) && EndS(ss[..i]) == EndT(ss[i - 1]) <= EndS(ss)
    ensures i < |ss| ==> EndS(ss[..i]) == ss[i].id && OutsideS(ss[i].id, ss[..i])
  {
    EndAfterS(ss);
    var p := ss[..i];
    forall j | 0 <= j < |p| ensures NumT(p[j]) { assert p[j] == ss[j]; }
    forall j | 0 < j < |p| ensures p[j].id == EndT(p[j - 1]) { assert p[j] == ss[j] && p[j - 1] == ss[j - 1]; }
    EndAfterS(p);
  }

  // A condition whose parts are built and whose own node is untouched is linked inside.
  lemma {:induction false} OpenCond(tab: Tab, t: Term)
    requires t.Cond? && Get(tab, t.id) == FRESH && StS(tab, t.body, None, NO_CTX)
    requires t.oper.Hfor? ==> StS(tab, t.endEach, None, NO_CTX)
    ensures StT(tab, t, None, None, None, NO_CTX)
  {
  }

  lemma {:induction false} BuildTCorrect(tab: Tab, t: Term)
    requires NumT(t) && ShapeT(t) && FreshIn(tab, t.id, EndT(t))
    ensures StT(BuildT(tab, t), t, None, None, None, NO_CTX)
    ensures OnlyT(tab, BuildT(tab, t), t) && Get(BuildT(tab, t), t.id) == FRESH
    decreases t, 0
  {
    EndAfterT(t);
    assert Get(tab, t.id) == FRESH;
    if t.Cond? {
      PartsInside(t);
      var a := if t.oper.Hfor? then BuildS(tab, t.endEach) else tab;
      if t.oper.Hfor? { BuildSCorrect(tab, t.endEach); }
      BuildSCorrect(a, t.body);
      if t.oper.Hfor? { FrameS(a, BuildT(tab, t), t.endEach, None, NO_CTX); }
      OpenCond(BuildT(tab, t), t);
    }
  }

  // A built block is linked inside and open at its end.
  lemma {:induction false} BuildSCorrect(tab: Tab, ss: seq<Term>)
    requires NumS(ss) && ShapeS(ss) && FreshIn(tab, ss[0].id, EndS(ss))
    ensures StS(BuildS(tab, ss), ss, None, NO_CTX)
    ensures OnlyS(tab, BuildS(tab, ss), ss)
    decreases ss, |ss| + 1
  {
    EndAfterS(ss);
    BuildTCorrect(tab, ss[0]);
    var a := BuildT(tab, ss[0]);
    var first: Option<nat> := if ss[0].IsHif() then Some(0) else None;
    assert ss[..1] == [ss[0]];
    OpenOne(a, ss[0]);
    BuildFromCorrect(a, ss, 1, first);
  }

  lemma {:induction false} OpenOne(tab: Tab, t: Term)
    requires StT(tab, t, None, None, None, NO_CTX) && Get(tab, t.id) == FRESH && !t.ContinuesIf()
    ensures OpenS(tab, [t], if t.IsHif() then Some(0) else None)
  {
    var ss := [t];
    assert forall j | 0 <= j < |ss| :: ss[j] == t && NextOf(ss, j, None) == None && CloseOf(ss, j, None) == None;
  }

  lemma {:induction false} BuildFromCorrect(tab: Tab, ss: seq<Term>, i: nat, first: Option<nat>)
    requires NumS(ss) && ShapeS(ss) && 0 < i <= |ss| && (first.Some? ==> first.value < i)
    requires OpenS(tab, ss[..i], first) && FreshIn(tab, EndT(ss[i - 1]), EndS(ss))
    ensures StS(BuildFrom(tab, ss, i, first), ss, None, NO_CTX)
    ensures OnlyS(tab, BuildFrom(tab, ss, i, first), ss)
    decreases ss, |ss| - i
  {
    if i == |ss| {
      assert ss[..i] == ss;
    } else {
      var a := Append(BuildT(tab, ss[i]), ss[..i], ss[i], first);
      BuildStep(tab, ss, i, first);
      BuildFromCorrect(a, ss, i + 1, NextFirst(ss[i], i, first));
    }
  }

  // The labels behind term `i` are still untouched.
  lemma {:induction false} StepOnly(tab: Tab, a: Tab, b: Tab, ss: seq<Term>, i: nat)
    requires NumS(ss) && ShapeS(ss) && 0 < i < |ss| && FreshIn(tab, EndT(ss[i - 1]), EndS(ss))
    requires OnlyT(tab, a, ss[i]) && OnlyS(a, b, ss[..i])
    ensures OnlyS(tab, b, ss) && FreshIn(b, EndT(ss[i]), EndS(ss))
  {
    EndAfterS(ss);
    assert ss[..i][|ss[..i]| - 1] == ss[i - 1] && ss[..i][0] == ss[0];
    NumPrefix(ss, i);
  }

  // One more term: its operands are built, then it is appended.
  lemma {:induction false} BuildStep(tab: Tab, ss: seq<Term>, i: nat, first: Option<nat>)
    requires NumS(ss) && ShapeS(ss) && 0 < i < |ss| && (first.Some? ==> first.value < i)
    requires OpenS(tab, ss[..i], first) && FreshIn(tab, EndT(ss[i - 1]), EndS(ss))
    ensures var a := Append(BuildT(tab, ss[i]), ss[..i], ss[i], first);
            && OpenS(a, ss[..i + 1], NextFirst(ss[i], i, first))
            && OnlyS(tab, a, ss) && FreshIn(a, EndT(ss[i]), EndS(ss))
    decreases ss, 0
  {
    EndAfterS(ss);
    var p, t := ss[..i], ss[i];
    NumPrefix(ss, i);
    assert ss[..i + 1] == p + [t];
    assert p[|p| - 1] == ss[i - 1] && p[0] == ss[0];
    BuildTCorrect(tab, t);
    var a := BuildT(tab, t);
    OpenFrame(tab, a, p, first);
    AppendCorrect(a, p, t, first);
    StepOnly(tab, a, Append(a, p, t, first), ss, i);
  }

  lemma {:induction false} OpenFrame(a: Tab, b: Tab, ss: seq<Term>, first: Option<nat>)
    requires NumS(ss) && OpenS(a, ss, first) && SameS(a, b, ss)
    ensures OpenS(b, ss, first)
  {
    EndAfterS(ss);
    forall j | 0 <= j < |ss| ensures StT(b, ss[j], NextOf(ss, j, None), CloseOf(ss, j, None), None, NO_CTX) {
      FrameT(a, b, ss[j], NextOf(ss, j, None), CloseOf(ss, j, None), None, NO_CTX);
    }
  }

  // After append_term, each old term is in the state it has in the longer block.
  ghost predicate LongerS(b: Tab, ss: seq<Term>, t: Term) {
    forall j | 0 <= j < |ss| ::
      StT(b, ss[j], NextOf(ss, j, Some(t.id)), CloseOf(ss, j, if t.ContinuesIf() then None else Some(t.id)), None, NO_CTX)
  }

  // The last term is no member of an if chain: nothing to close.
  lemma {:induction false} ClosesNothing(a: Tab, ss: seq<Term>, t: Term)
    requires |ss| > 0 && EndLinked(a, ss, t.id) && !ss[|ss| - 1].InChain() && !t.ContinuesIf()
    ensures LongerS(a, ss, t)
  {
    forall j | 0 <= j < |ss|
      ensures StT(a, ss[j], NextOf(ss, j, Some(t.id)), CloseOf(ss, j, Some(t.id)), None, NO_CTX)
    {
      CloseKnown(ss, j, t.id);
      Irrelevant(a, ss[j], NextOf(ss, j, Some(t.id)), CloseOf(ss, j, None), CloseOf(ss, j, Some(t.id)), None, None, NO_CTX);
    }
  }

  lemma {:induction false} OpenTail(a: Tab, ss: seq<Term>, nxt: nat, f: nat)
    requires EndLinked(a, ss, nxt) && f < |ss| && ss[f].IsHif() && CloseOf(ss, f, None).None?
    ensures ChainTail(a, ss, f, nxt, None)
    ensures forall j | f <= j < |ss| :: CloseOf(ss, j, Some(nxt)) == Some(nxt)
    ensures forall j | 0 <= j < f :: CloseOf(ss, j, Some(nxt)) == CloseOf(ss, j, None)
  {
    CloseKnown(ss, f, nxt);
    forall j | f <= j < |ss|
      ensures ss[j].InChain() && CloseOf(ss, j, Some(nxt)) == Some(nxt)
      ensures StT(a, ss[j], NextOf(ss, j, Some(nxt)), None, None, NO_CTX)
    {
      CloseKnown(ss, j, nxt);
    }
    forall j | 0 <= j < f ensures CloseOf(ss, j, Some(nxt)) == CloseOf(ss, j, None) { CloseKnown(ss, j, nxt); }
  }

  // The chain that starts at `f` is closed; the terms before it stay.
  lemma {:induction false} ClosesChain(a: Tab, b: Tab, ss: seq<Term>, t: Term, f: nat)
    requires NumS(ss) && f < |ss| && EndLinked(a, ss, t.id) && !t.ContinuesIf()
    requires ChainTail(b, ss, f, t.id, Some(t.id)) && OnlyFrom(a, b, ss, f)
    requires forall j | f <= j < |ss| :: CloseOf(ss, j, Some(t.id)) == Some(t.id)
    requires forall j | 0 <= j < f :: CloseOf(ss, j, Some(t.id)) == CloseOf(ss, j, None)
    ensures LongerS(b, ss, t)
  {
    EarlierSame(a, b, ss, f);
    forall j | 0 <= j < |ss|
      ensures StT(b, ss[j], NextOf(ss, j, Some(t.id)), CloseOf(ss, j, Some(t.id)), None, NO_CTX)
    {
      if j < f {
        FrameT(a, b, ss[j], NextOf(ss, j, Some(t.id)), CloseOf(ss, j, None), None, NO_CTX);
      }
    }
  }

  // append_term closes the open if chain, if there is one and `t` ends it.
  lemma {:induction false} AppendCloses(a: Tab, ss: seq<Term>, t: Term, first: Option<nat>) returns (b: Tab)
    requires NumS(ss) && t.id == EndS(ss) && EndLinked(a, ss, t.id) && FirstOk(ss, first)
    ensures b == if first.Some? && !t.ContinuesIf() then LastT(a, ss, first.value, t.id) else a
    ensures LongerS(b, ss, t) && OnlyS(a, b, ss)
    ensures Get(a, ss[0].id).blockLast == Get(b, ss[0].id).blockLast
    ensures Get(a, ss[0].id).blockJumps == Get(b, ss[0].id).blockJumps
  {
    b := a;
    if t.ContinuesIf() {
    } else if first.None? {
      ClosesNothing(a, ss, t);
    } else {
      var f := first.value;
      OpenTail(a, ss, t.id, f);
      ChainCorrect(a, ss, f, t.id);
      b := LastT(a, ss, f, t.id);
      ClosesChain(a, b, ss, t, f);
      EndAfterS(ss);
    }
  }

  // append_term links the last term of the block and closes the if chain it ends.
  lemma {:induction false} AppendCorrect(tab: Tab, ss: seq<Term>, t: Term, first: Option<nat>)
    requires NumS(ss) && NumT(t) && t.id == EndS(ss) && OpenS(tab, ss, first)
    requires StT(tab, t, None, None, None, NO_CTX)
    requires t.ContinuesIf() ==> ss[|ss| - 1].InChain()
    ensures OpenS(Append(tab, ss, t, first), ss + [t], NextFirst(t, |ss|, first))
    ensures OnlyS(tab, Append(tab, ss, t, first), ss)
  {
    EndAfterS(ss);
    var n := |ss| - 1;
    var a := NextT(tab, ss[n], t.id);
    NextTCorrect(tab, ss[n], t.id);
    EndLinks(tab, a, ss, t.id);
    var b := AppendCloses(a, ss, t, first);
    FrameT(tab, b, t, None, None, None, NO_CTX);
    LongerOpen(b, ss, t, first);
  }

  lemma {:induction false} LongerOpen(b: Tab, ss: seq<Term>, t: Term, first: Option<nat>)
    requires |ss| > 0 && LongerS(b, ss, t) && StT(b, t, None, None, None, NO_CTX)
    requires !Get(b, ss[0].id).blockLast && Get(b, ss[0].id).blockJumps == {}
    requires FirstOk(ss, first)
    requires t.ContinuesIf() ==> ss[|ss| - 1].InChain()
    ensures OpenS(b, ss + [t], NextFirst(t, |ss|, first))
  {
    var st := ss + [t];
    forall j | 0 <= j < |st| ensures StT(b, st[j], NextOf(st, j, None), CloseOf(st, j, None), None, NO_CTX) {
      if j < |ss| { CloseAppend(ss, t, j); }
    }
    if first.Some? { CloseAppend(ss, t, first.value); }
  }

  // The links of a whole method: every term of the body goes where its surroundings say,
  // hreturn goes to the return step, and nothing outside the labels of the method changed.
  lemma {:induction false} BuildMethodCorrect(tab: Tab, body: seq<Term>, ret: nat)
    requires ShapeS(body) && NumS(body) && ret == EndS(body) && FreshIn(tab, body[0].id, ret + 1)
    ensures StS(BuildMethod(tab, body, ret), body + [Ret(ret)], None, NO_CTX.(ret := Some(ret)))
    ensures OnlyS(tab, BuildMethod(tab, body, ret), body + [Ret(ret)])
  {
    var ss := body + [Ret(ret)];
    forall j | 0 < j < |ss| ensures ss[j].id == EndT(ss[j - 1]) {
      assert ss[j - 1] == body[j - 1];
    }
    assert ss[|ss| - 1] == Ret(ret) && ss[0] == body[0] && EndT(Ret(ret)) == ret + 1;
    assert NumS(ss);
    BuildSCorrect(tab, ss);
    JumpsSCorrect(BuildS(tab, ss), ss, None, NO_CTX, Return, ret);
  }
}
