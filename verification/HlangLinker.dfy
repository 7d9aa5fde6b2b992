/**
  The linking passes of hlang.cpp: `set_next`, `set_last` and `set_jumps` assign the fields
  of the terms while the operators build a method body. The checks of the source are asserts.
 */
module HlangLinker {
  import opened Options
  import opened HlangTerms
  import opened HlangLinks
  import opened HlangPasses
  import opened HlangBuild
  import opened HlangChecks

  class Linker {
    var tab: Tab  // the mutable fields of all terms and blocks, by label

    constructor ()
      ensures tab == map[]
    {
      tab := map[];
    }

    method SetJumpsT(t: Term, op: Op, v: nat)
      requires JumpsTOk(tab, t, op, v)
      modifies this
      ensures tab == JumpsT(old(tab), t, op, v)
      decreases t, 0
    {
      var nd := Get(tab, t.id);
      match t
      case Keyword(_, kop) =>
        if kop == op && op != Case && op !in nd.jumps {
          tab := tab[t.id := nd.(next := Some(v), jumps := nd.jumps + {op})];
        }
      case Cond(_, oper, _, _, body) =>
        if op in nd.jumps { return; }
        if oper.Hcase? {
          assert op == Case ==> nd.expr.None?;
          tab := tab[t.id := nd.(jumps := nd.jumps + {op}, expr := if op == Case then Some(v) else nd.expr)];
          return;
        }
        tab := tab[t.id := nd.(jumps := nd.jumps + {op})];
        SetJumpsS(body, op, v);
      case _ =>
    }

    method SetJumpsS(ss: seq<Term>, op: Op, v: nat)
      requires JumpsSOk(tab, ss, op, v)
      modifies this
      ensures tab == JumpsS(old(tab), ss, op, v)
      decreases ss, 1
    {
      if ss == [] || op in Get(tab, ss[0].id).blockJumps { return; }
      var nd := Get(tab, ss[0].id);
      tab := tab[ss[0].id := nd.(blockJumps := nd.blockJumps + {op})];
      for i := 0 to |ss|
        invariant JumpsFromOk(tab, ss, i, op, v)
        invariant JumpsFrom(tab, ss, i, op, v) == JumpsS(old(tab), ss, op, v)
      {
        SetJumpsT(ss[i], op, v);
      }
    }

    method SetNext(t: Term, nxt: nat)
      requires NextTOk(tab, t, nxt)
      modifies this
      ensures tab == NextT(old(tab), t, nxt)
      decreases t, 0
    {
      assert !t.Cond? ==> Get(tab, t.id).next.None?;
      if !(t.Cond? && t.oper.Hswitch?) {
        tab := tab[t.id := Get(tab, t.id).(next := Some(nxt))];
      }
      if t.Cond? {
        match t.oper
        case Hfor =>
          SetLastS(t.endEach, t.id);
          SetLastS(t.body, t.endEach[0].id);
          SetJumpsS(t.body, Break, nxt);
          SetJumpsS(t.body, Continue, t.id);
        case Hwhile =>
          SetLastS(t.body, t.id);
          SetJumpsS(t.body, Break, nxt);
          SetJumpsS(t.body, Continue, t.id);
        case Hswitch =>
          SetLastS(t.body, nxt);
          SetJumpsS(t.body, Case, t.test);
        case _ =>
      }
    }

    method SetLastS(ss: seq<Term>, nxt: nat)
      requires LastSOk(tab, ss, nxt)
      modifies this
      ensures tab == LastS(old(tab), ss, nxt)
      decreases ss, 3, 0
    {
      if Get(tab, ss[0].id).blockLast { return; }
      tab := tab[ss[0].id := Get(tab, ss[0].id).(blockLast := true)];
      SetNext(ss[|ss| - 1], nxt);
      for i := 0 to |ss|
        invariant LastFromOk(tab, ss, i, nxt)
        invariant LastFrom(tab, ss, i, nxt) == LastS(old(tab), ss, nxt)
      {
        SetLastT(ss, i, nxt);
      }
    }

    // Term `i` of a block; a member of an if chain follows its `next`.
    method SetLastT(ss: seq<Term>, i: nat, nxt: nat)
      requires i < |ss| && LastTOk(tab, ss, i, nxt)
      modifies this
      ensures tab == LastT(old(tab), ss, i, nxt)
      decreases ss, 1, |ss| - i
    {
      var t := ss[i];
      var nd := Get(tab, t.id);
      if !t.Cond? || nd.last { return; }
      tab := tab[t.id := nd.(last := true)];
      match t.oper
      case Hwhile =>
      case Hfor =>
      case Hswitch => SetLastS(t.body, nxt);
      case Hcase => SetLastS(t.body, nxt);
      case Hdefault => SetLastS(t.body, nxt);
      case _ =>
        SetLastS(t.body, nxt);
        if nd.next != Some(nxt) {
          assert i + 1 < |ss| && nd.next == Some(ss[i + 1].id) && ss[i + 1].Cond?;
          SetLastT(ss, i + 1, nxt);
        }
    }

    method BuildOperands(t: Term)
      requires BuildTOk(tab, t)
      modifies this
      ensures tab == BuildT(old(tab), t)
      decreases t, 0
    {
      if t.Cond? {
        if t.oper.Hfor? { BuildSteps(t.endEach); }
        BuildSteps(t.body);
      }
    }

    // to_steps, then append_term for each further term.
    method BuildSteps(ss: seq<Term>)
      requires BuildSOk(tab, ss)
      modifies this
      ensures tab == BuildS(old(tab), ss)
      decreases ss, 1
    {
      if ss == [] { return; }
      BuildOperands(ss[0]);
      var firstIf: Option<nat> := if ss[0].IsHif() then Some(0) else None;
      for i := 1 to |ss|
        invariant firstIf.Some? ==> firstIf.value < i
        invariant BuildFromOk(tab, ss, i, firstIf)
        invariant BuildFrom(tab, ss, i, firstIf) == BuildS(old(tab), ss)
      {
        BuildOperands(ss[i]);
        SetNext(ss[i - 1], ss[i].id);
        if firstIf.Some? && !ss[i].ContinuesIf() {
          SetLastT(ss[..i], firstIf.value, ss[i].id);
          firstIf := None;
        }
        if ss[i].IsHif() { firstIf := Some(i); }
      }
    }

    // hmethod_def_base: all links of a method whose body has just been numbered.
    method DefineMethod(body: seq<Term>, ret: nat)
      requires ShapeS(body) && NumS(body) && ret == EndS(body) && FreshIn(tab, body[0].id, ret + 1)
      modifies this
      ensures StS(tab, body + [Ret(ret)], None, NO_CTX.(ret := Some(ret)))
      ensures OnlyS(old(tab), tab, body + [Ret(ret)])
    {
      BuildMethodCorrect(tab, body, ret);
      MethodLinksSafely(tab, body, ret);
      var ss := body + [Ret(ret)];
      BuildSteps(ss);
      SetJumpsS(ss, Return, ret);
    }
  }
}
