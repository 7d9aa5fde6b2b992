/**
  The steps that handle missives keep the invariant: those over in_work, one handler at a time
  up to the mark on the group, and those over local_work whose missives are for the worker
  itself.
 */
module MissiveHandle {
  import opened Missives
  import opened MissiveInv
  import opened MissiveSteps

  // ---------------------------------------------------------------- in_work

  // There is a group to be handled.
  predicate Busy(s: Sys, w: nat)
    requires w < |s.ws|
  {
    && s.ws[w].pc.Handle? && s.ws[w].inWork != [] && s.ws[w].inWork[0] < |s.mem|
    && forall g | g in s.ws[w].inWork :: g < |s.mem| && s.mem[g].src < |s.ws[w].handledFrom|
  }

  // The first group of in_work and the place in it.
  lemma {:induction false} HandleFacts(s: Sys, w: nat)
    requires Inv(s) && w < |s.ws| && s.ws[w].pc.Handle?
    ensures Sizes(s, w)
    ensures forall g | g in s.ws[w].inWork :: g < |s.mem| && s.mem[g].src < |s.ws[w].handledFrom|
    ensures s.ws[w].inWork != [] ==>
      var g := s.ws[w].inWork[0];
      g in s.ws[w].inWork && g < |s.mem| && s.mem[g].src < |s.ws| && s.mem[g].src != w && s.mem[g].dst == w
      && s.mem[g].stage.InWork? && s.ws[w].pc.i <= |s.mem[g].msvs|
  {
    assert WorkerOk(s, w);
    InBounds(s, w);
    if s.ws[w].inWork != [] { assert s.ws[w].inWork[0] in s.ws[w].inWork; }
  }

  lemma FrontHandled(h: seq<Msv>, m: Msv, i: seq<Msv>, x: seq<Msv>, o: seq<Msv>, l: seq<Msv>)
    ensures h + ([m] + i + x + o + l) == (h + [m]) + (i + x + o + l)
  {
  }

  lemma {:induction false} OneHandledHere(s: Sys, w: nat, a: nat)
    requires Inv(s) && w < |s.ws| && s.ws[w].pc.Handle? && a < |s.ws|
    requires Busy(s, w) && s.ws[w].pc.i < |s.mem[s.ws[w].inWork[0]].msvs| && s.mem[s.ws[w].inWork[0]].src == a
    ensures LogOk(StepHandle(s, w), a, w)
  {
    HandleFacts(s, w);
    var s', i := StepHandle(s, w), s.ws[w].pc.i;
    var msvs := s.mem[s.ws[w].inWork[0]].msvs;
    assert LogOk(s, a, w);
    var rest := Flat(s.mem, s.ws[w].inWork[1..], a);
    assert msvs[i..] + rest == [msvs[i]] + (msvs[i + 1..] + rest);
    FrontHandled(s.ws[w].handledFrom[a], msvs[i], InPart(s.mem, s'.ws[w], a), SlotPart(s.mem, s.ws[w].slots[a]),
                 OutPart(s.mem, s.ws[a].out, w), LocalPart(s.ws[a].local, w));
  }

  lemma {:induction false} OneHandledAway(s: Sys, w: nat, a: nat, b: nat)
    requires Inv(s) && w < |s.ws| && s.ws[w].pc.Handle? && a < |s.ws| && b < |s.ws|
    requires Busy(s, w) && s.ws[w].pc.i < |s.mem[s.ws[w].inWork[0]].msvs|
    requires b != w || s.mem[s.ws[w].inWork[0]].src != a
    ensures LogOk(StepHandle(s, w), a, b)
  {
    HandleFacts(s, w);
    assert LogOk(s, a, b);
    SameLog(s, StepHandle(s, w), a, b);
  }

  lemma {:induction false} OneHandledWorker(s: Sys, w: nat, v: nat)
    requires Inv(s) && w < |s.ws| && s.ws[w].pc.Handle? && v < |s.ws|
    requires Busy(s, w) && s.ws[w].pc.i < |s.mem[s.ws[w].inWork[0]].msvs|
    ensures WorkerOk(StepHandle(s, w), v)
  {
    assert WorkerOk(s, v);
    var s' := StepHandle(s, w);
    forall g | g in s.ws[v].out ensures OutAt(s', v, g) { assert OutAt(s, v, g); }
  }

  // The whole group has been handled: it is marked.
  lemma {:induction false} MarkWorker(s: Sys, w: nat, v: nat)
    requires Inv(s) && w < |s.ws| && s.ws[w].pc.Handle? && v < |s.ws|
    requires Busy(s, w) && s.ws[w].pc.i == |s.mem[s.ws[w].inWork[0]].msvs|
    ensures WorkerOk(StepHandle(s, w), v)
  {
    HandleFacts(s, w);
    assert WorkerOk(s, v);
    var s' := StepHandle(s, w);
    var g := s.ws[w].inWork[0];
    forall h | h in s.ws[v].out ensures OutAt(s', v, h) { assert OutAt(s, v, h); }
    if v == w {
      forall h | h in s'.ws[w].inWork ensures h in s.ws[w].inWork && h != g {
        var i :| 0 <= i < |s.ws[w].inWork| - 1 && s.ws[w].inWork[1..][i] == h;
        assert s.ws[w].inWork[i + 1] == h;
      }
    }
  }

  lemma {:induction false} MarkLink(s: Sys, w: nat, a: nat, b: nat)
    requires Inv(s) && w < |s.ws| && s.ws[w].pc.Handle? && a < |s.ws| && b < |s.ws|
    requires Busy(s, w) && s.ws[w].pc.i == |s.mem[s.ws[w].inWork[0]].msvs|
    ensures LinkOk(StepHandle(s, w), a, b)
  {
    HandleFacts(s, w);
    assert LinkOk(s, a, b);
  }

  lemma {:induction false} MarkLogHere(s: Sys, w: nat, a: nat)
    requires Inv(s) && w < |s.ws| && s.ws[w].pc.Handle? && a < |s.ws|
    requires Busy(s, w) && s.ws[w].pc.i == |s.mem[s.ws[w].inWork[0]].msvs|
    ensures LogOk(StepHandle(s, w), a, w)
  {
    HandleFacts(s, w);
    var s', gs := StepHandle(s, w), s.ws[w].inWork;
    assert LogOk(s, a, w) && LinkOk(s, a, w);
    OutBounds(s, a);
    InBounds(s, w);
    OutPartFrame(s.mem, s'.mem, s.ws[a].out, w);
    forall g | g in gs[1..] ensures g in gs {}
    FlatFrame(s.mem, s'.mem, gs[1..], a);
    assert s.mem[gs[0]].msvs[s.ws[w].pc.i..] == [];
    assert InPart(s.mem, s.ws[w], a) == Flat(s.mem, gs[1..], a);
    assert InPart(s'.mem, s'.ws[w], a) == Flat(s'.mem, gs[1..], a);
    SameLog(s, s', a, w);
  }

  lemma {:induction false} MarkLogAway(s: Sys, w: nat, a: nat, b: nat)
    requires Inv(s) && w < |s.ws| && s.ws[w].pc.Handle? && a < |s.ws| && b < |s.ws| && b != w
    requires Busy(s, w) && s.ws[w].pc.i == |s.mem[s.ws[w].inWork[0]].msvs|
    ensures LogOk(StepHandle(s, w), a, b)
  {
    HandleFacts(s, w);
    var s' := StepHandle(s, w);
    assert LogOk(s, a, b) && LinkOk(s, a, b);
    OutBounds(s, a);
    InBounds(s, b);
    OutPartFrame(s.mem, s'.mem, s.ws[a].out, b);
    InPartFrame(s.mem, s'.mem, s.ws[b], a);
    SameLog(s, s', a, b);
  }

  lemma {:induction false} HandleOk(s: Sys, w: nat)
    requires Inv(s) && w < |s.ws| && s.ws[w].pc.Handle?
    ensures forall g | g in s.ws[w].inWork :: g < |s.mem| && s.mem[g].src < |s.ws[w].handledFrom|
    ensures Inv(StepHandle(s, w))
  {
    HandleFacts(s, w);
    assert WorkerOk(s, w);
    var s' := StepHandle(s, w);
    if s.ws[w].inWork == [] {
      assert Between(s.ws[w].pc);
      GoesOn(s, s', w);
    } else if s.ws[w].pc.i < |s.mem[s.ws[w].inWork[0]].msvs| {
      forall v | 0 <= v < |s'.ws| ensures WorkerOk(s', v) { OneHandledWorker(s, w, v); }
      forall g | 0 <= g < |s'.mem| ensures GroupOk(s', g) { assert GroupOk(s, g); }
      forall a, b | 0 <= a < |s'.ws| && 0 <= b < |s'.ws| ensures LinkOk(s', a, b) { assert LinkOk(s, a, b); }
      forall a, b | 0 <= a < |s'.ws| && 0 <= b < |s'.ws| ensures LogOk(s', a, b) {
        if b == w && s.mem[s.ws[w].inWork[0]].src == a { OneHandledHere(s, w, a); } else { OneHandledAway(s, w, a, b); }
      }
    } else {
      forall v | 0 <= v < |s'.ws| ensures WorkerOk(s', v) { MarkWorker(s, w, v); }
      forall g | 0 <= g < |s'.mem| ensures GroupOk(s', g) { assert GroupOk(s, g); }
      forall a, b | 0 <= a < |s'.ws| && 0 <= b < |s'.ws| ensures LinkOk(s', a, b) { MarkLink(s, w, a, b); }
      forall a, b | 0 <= a < |s'.ws| && 0 <= b < |s'.ws| ensures LogOk(s', a, b) {
        if b == w { MarkLogHere(s, w, a); } else { MarkLogAway(s, w, a, b); }
      }
    }
  }

  // ---------------------------------------------------------------- local_work

  lemma {:induction false} SelfOk(s: Sys, w: nat)
    requires Inv(s) && w < |s.ws| && s.ws[w].pc.Local? && Sizes(s, w)
    requires s.ws[w].local != [] && s.ws[w].local[0].dst == w
    requires forall g | g in s.ws[w].out :: g < |s.mem|
    ensures Inv(StepLocal(s, w, true))
  {
    var s' := StepLocal(s, w, true);
    forall v | 0 <= v < |s'.ws| ensures WorkerOk(s', v) {
      assert WorkerOk(s, v);
      forall g | g in s.ws[v].out ensures OutAt(s', v, g) { assert OutAt(s, v, g); }
    }
    forall g | 0 <= g < |s'.mem| ensures GroupOk(s', g) { assert GroupOk(s, g); }
    forall a, b | 0 <= a < |s'.ws| && 0 <= b < |s'.ws| ensures LinkOk(s', a, b) { assert LinkOk(s, a, b); }
    forall a, b | 0 <= a < |s'.ws| && 0 <= b < |s'.ws| ensures LogOk(s', a, b) { SelfLog(s, w, a, b); }
  }

  lemma {:induction false} SelfLog(s: Sys, w: nat, a: nat, b: nat)
    requires Inv(s) && w < |s.ws| && s.ws[w].pc.Local? && Sizes(s, w) && a < |s.ws| && b < |s.ws|
    requires s.ws[w].local != [] && s.ws[w].local[0].dst == w
    requires forall g | g in s.ws[w].out :: g < |s.mem|
    ensures LogOk(StepLocal(s, w, true), a, b)
  {
    assert LogOk(s, a, b);
    if a == w && b != w {
      assert LocalPart(s.ws[w].local, b) == LocalPart(s.ws[w].local[1..], b);
    }
  }
}
