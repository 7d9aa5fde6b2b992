/**
  The steps of the missive machine that send a missive, test the signal and scan the slots keep
  the invariant, and so does going from one part of a pass to the next. The other files on
  missives use the frame lemmas at the start.
 */
module MissiveSteps {
  import opened Options
  import opened Missives
  import opened MissiveInv

  // ---------------------------------------------------------------- missives under way

  lemma {:induction false} FlatFrame(mem: seq<Group>, mem': seq<Group>, gs: seq<nat>, a: nat)
    requires forall g | g in gs :: g < |mem| && g < |mem'| && mem'[g].src == mem[g].src && mem'[g].msvs == mem[g].msvs
    ensures Flat(mem', gs, a) == Flat(mem, gs, a)
  {
    if gs != [] {
      assert gs[0] in gs;
      FlatFrame(mem, mem', gs[1..], a);
    }
  }

  lemma {:induction false} InPartFrame(mem: seq<Group>, mem': seq<Group>, x: Worker, a: nat)
    requires forall g | g in x.inWork :: g < |mem| && g < |mem'| && mem'[g].src == mem[g].src && mem'[g].msvs == mem[g].msvs
    ensures InPart(mem', x, a) == InPart(mem, x, a)
  {
    FlatFrame(mem, mem', x.inWork, a);
    if x.inWork != [] {
      assert x.inWork[0] in x.inWork;
      FlatFrame(mem, mem', x.inWork[1..], a);
    }
  }

  lemma {:induction false} FlatAppend(mem: seq<Group>, gs: seq<nat>, g: nat, a: nat)
    requires g < |mem|
    ensures Flat(mem, gs + [g], a) == Flat(mem, gs, a) + (if mem[g].src == a then mem[g].msvs else [])
  {
    if gs != [] {
      assert (gs + [g])[1..] == gs[1..] + [g];
      FlatAppend(mem, gs[1..], g, a);
    } else {
      assert (gs + [g])[1..] == [];
    }
  }

  lemma {:induction false} LocalAppend(local: seq<Msv>, m: Msv, b: nat)
    ensures LocalPart(local + [m], b) == LocalPart(local, b) + (if m.dst == b then [m] else [])
  {
    if local != [] {
      assert (local + [m])[1..] == local[1..] + [m];
      LocalAppend(local[1..], m, b);
    } else {
      assert (local + [m])[1..] == [];
    }
  }

  lemma {:induction false} OutGroupFrame(mem: seq<Group>, mem': seq<Group>, out: seq<nat>, d: nat)
    requires forall g | g in out :: g < |mem| && g < |mem'| && mem'[g].dst == mem[g].dst
    ensures OutGroup(mem', out, d) == OutGroup(mem, out, d)
  {
    if out != [] {
      assert out[0] in out;
      OutGroupFrame(mem, mem', out[1..], d);
    }
  }

  lemma {:induction false} OutGroupFound(mem: seq<Group>, out: seq<nat>, d: nat)
    ensures OutGroup(mem, out, d).Some? ==>
      var g := OutGroup(mem, out, d).value; g in out && g < |mem| && mem[g].dst == d
    ensures OutGroup(mem, out, d).None? ==> forall g | g in out && g < |mem| :: mem[g].dst != d
  {
    if out != [] { OutGroupFound(mem, out[1..], d); }
  }

  lemma {:induction false} OutGroupIs(mem: seq<Group>, out: seq<nat>, k: nat)
    requires k < |out| && out[k] < |mem|
    requires forall i, j | 0 <= i < j < |out| :: out[i] != out[j] && OneDst(mem, out[i], out[j])
    ensures OutGroup(mem, out, mem[out[k]].dst) == Some(out[k])
  {
    if k > 0 {
      assert OneDst(mem, out[0], out[k]);
      OutGroupIs(mem, out[1..], k - 1);
    }
  }

  // Stages behind the slot are all the same to out_work.
  lemma {:induction false} OutPartFrame(mem: seq<Group>, mem': seq<Group>, out: seq<nat>, d: nat)
    requires forall g | g in out :: g < |mem| && g < |mem'| && mem'[g].dst == mem[g].dst
    requires forall g | g in out && g < |mem| && g < |mem'| && mem[g].dst == d ::
               mem'[g].msvs == mem[g].msvs && mem'[g].stage.InOut? == mem[g].stage.InOut?
    ensures OutPart(mem', out, d) == OutPart(mem, out, d)
  {
    OutGroupFrame(mem, mem', out, d);
    OutGroupFound(mem, out, d);
  }

  lemma {:induction false} OutBounds(s: Sys, w: nat)
    requires Inv(s) && w < |s.ws|
    ensures Sizes(s, w)
    ensures forall g | g in s.ws[w].out :: g < |s.mem| && s.mem[g].src == w && s.mem[g].dst < |s.ws| && s.mem[g].dst != w
  {
    assert WorkerOk(s, w);
    forall g | g in s.ws[w].out
      ensures g < |s.mem| && s.mem[g].src == w && s.mem[g].dst < |s.ws| && s.mem[g].dst != w
    {
      assert OutAt(s, w, g);
    }
  }

  lemma {:induction false} InBounds(s: Sys, w: nat)
    requires Inv(s) && w < |s.ws|
    ensures Sizes(s, w)
    ensures forall g | g in s.ws[w].inWork ::
              g < |s.mem| && s.mem[g].dst == w && s.mem[g].src < |s.ws| && s.mem[g].src != w && s.mem[g].stage.InWork?
  {
    assert WorkerOk(s, w);
    forall g | g in s.ws[w].inWork ensures g < |s.mem| && s.mem[g].src != w { assert GroupOk(s, g); }
  }

  // The parts of the log, to be compared before and after a step.
  lemma {:induction false} SameLog(s: Sys, s': Sys, a: nat, b: nat)
    requires a < |s.ws| == |s'.ws| && b < |s.ws| && LogOk(s, a, b) && Sizes(s', a) && Sizes(s', b)
    requires s'.ws[a].sentTo[b] == s.ws[a].sentTo[b] && s'.ws[b].handledFrom[a] == s.ws[b].handledFrom[a]
    requires LocalPart(s'.ws[a].local, b) == LocalPart(s.ws[a].local, b)
    requires a != b ==>
      InPart(s'.mem, s'.ws[b], a) + SlotPart(s'.mem, s'.ws[b].slots[a]) + OutPart(s'.mem, s'.ws[a].out, b)
      == InPart(s.mem, s.ws[b], a) + SlotPart(s.mem, s.ws[b].slots[a]) + OutPart(s.mem, s.ws[a].out, b)
    ensures LogOk(s', a, b)
  {
  }

  // ---------------------------------------------------------------- steps that only go on

  // A step that changes nothing but the place of a worker in its pass.
  ghost predicate OnlyPc(s: Sys, s': Sys, w: nat) {
    && w < |s.ws| && |s'.ws| == |s.ws| && s'.mem == s.mem && PcOk(s', w)
    && s'.ws == s.ws[w := s.ws[w].(pc := s'.ws[w].pc)]
  }

  // Places at which the worker is not in the middle of something.
  predicate Between(pc: Pc) {
    pc.Idle? || pc.Local? || pc.Out? || pc.Sent? || (pc.Handle? && pc.i == 0)
  }

  lemma {:induction false} GoesOnWorker(s: Sys, s': Sys, w: nat, v: nat)
    requires Inv(s) && OnlyPc(s, s', w) && v < |s.ws| && !s.ws[w].pc.Signal?
    ensures WorkerOk(s', v)
  {
    assert WorkerOk(s, v);
    forall g | g in s.ws[v].out ensures OutAt(s', v, g) { assert OutAt(s, v, g); }
  }

  // A worker goes from one part of its pass to another, or has looked at something.
  predicate Onwards(s: Sys, s': Sys, w: nat)
    requires w < |s.ws| && w < |s'.ws|
  {
    var pc, pc', slots := s.ws[w].pc, s'.ws[w].pc, s.ws[w].slots;
    || (Between(pc) && Between(pc'))
    || (pc.Idle? && pc'.Clear?) || (pc.Out? && pc'.Claim?)
    || (pc == Scan(|s.ws|) && pc' == Handle(0))
    || (pc.Scan? && pc.j < |s.ws| == |slots| && slots[pc.j].None? && pc' == Scan(pc.j + 1))
    || (pc.Scan? && pc.j < |s.ws| == |slots| && slots[pc.j].Some? && pc' == Found(pc.j, slots[pc.j].value))
  }

  lemma {:induction false} GoesOnLink(s: Sys, s': Sys, w: nat, a: nat, b: nat)
    requires Inv(s) && OnlyPc(s, s', w) && a < |s.ws| && b < |s.ws|
    requires Onwards(s, s', w)
    ensures LinkOk(s', a, b)
  {
    assert LinkOk(s, a, b);
  }

  lemma {:induction false} GoesOnLog(s: Sys, s': Sys, w: nat, a: nat, b: nat)
    requires Inv(s) && OnlyPc(s, s', w) && a < |s.ws| && b < |s.ws|
    requires !s.ws[w].pc.Handle? || s.ws[w].pc.i == 0
    requires !s'.ws[w].pc.Handle? || s'.ws[w].pc.i == 0
    ensures LogOk(s', a, b)
  {
    assert LogOk(s, a, b);
  }

  // The three parts of the invariant, collected.
  lemma {:induction false} GoesOn(s: Sys, s': Sys, w: nat)
    requires Inv(s) && OnlyPc(s, s', w)
    requires Onwards(s, s', w)
    ensures Inv(s')
  {
    forall v | 0 <= v < |s'.ws| ensures WorkerOk(s', v) { GoesOnWorker(s, s', w, v); }
    forall g | 0 <= g < |s'.mem| ensures GroupOk(s', g) { assert GroupOk(s, g); }
    forall a, b | 0 <= a < |s'.ws| && 0 <= b < |s'.ws| ensures LinkOk(s', a, b) { GoesOnLink(s, s', w, a, b); }
    forall a, b | 0 <= a < |s'.ws| && 0 <= b < |s'.ws| ensures LogOk(s', a, b) { GoesOnLog(s, s', w, a, b); }
  }

  // ---------------------------------------------------------------- send

  lemma {:induction false} SendWorker(s: Sys, w: nat, m: Msv, v: nat)
    requires Inv(s) && w < |s.ws| && m.dst < |s.ws| && v < |s.ws| && Sizes(s, w)
    ensures WorkerOk(Send(s, w, m), v)
  {
    assert WorkerOk(s, v);
    var s' := Send(s, w, m);
    forall g | g in s.ws[v].out ensures OutAt(s', v, g) { assert OutAt(s, v, g); }
  }

  lemma {:induction false} SendLog(s: Sys, w: nat, m: Msv, a: nat, b: nat)
    requires Inv(s) && w < |s.ws| && m.dst < |s.ws| && a < |s.ws| && b < |s.ws| && Sizes(s, w)
    ensures LogOk(Send(s, w, m), a, b)
  {
    assert LogOk(s, a, b);
    if a != w {
      SameLog(s, Send(s, w, m), a, b);
    } else {
      LocalAppend(s.ws[w].local, m, b);
      SendLogOwn(s, w, m, b);
    }
  }

  lemma {:induction false} SendLogOwn(s: Sys, w: nat, m: Msv, b: nat)
    requires Inv(s) && w < |s.ws| && m.dst < |s.ws| && b < |s.ws| && Sizes(s, w) && Sizes(s, b) && LogOk(s, w, b)
    requires LocalPart(s.ws[w].local + [m], b) == LocalPart(s.ws[w].local, b) + (if m.dst == b then [m] else [])
    ensures LogOk(Send(s, w, m), w, b)
  {
    var s', more := Send(s, w, m), if m.dst == b then [m] else [];
    assert s'.ws[b].handledFrom == s.ws[b].handledFrom;
    assert s'.ws[w].sentTo[b] == s.ws[w].sentTo[b] + more;
    assert Transit(s', w, b) == Transit(s, w, b) + more;
  }

  lemma {:induction false} SendOk(s: Sys, w: nat, m: Msv)
    requires Inv(s) && w < |s.ws| && m.dst < |s.ws|
    ensures Sizes(s, w) && Inv(Send(s, w, m))
  {
    OutBounds(s, w);
    var s' := Send(s, w, m);
    forall v | 0 <= v < |s'.ws| ensures WorkerOk(s', v) { SendWorker(s, w, m, v); }
    forall g | 0 <= g < |s'.mem| ensures GroupOk(s', g) { assert GroupOk(s, g); }
    forall a, b | 0 <= a < |s'.ws| && 0 <= b < |s'.ws| ensures LinkOk(s', a, b) { assert LinkOk(s, a, b); }
    forall a, b | 0 <= a < |s'.ws| && 0 <= b < |s'.ws| ensures LogOk(s', a, b) { SendLog(s, w, m, a, b); }
  }

  // ---------------------------------------------------------------- the receiver

  lemma {:induction false} IdleOk(s: Sys, w: nat)
    requires Inv(s) && w < |s.ws| && s.ws[w].pc.Idle?
    ensures Inv(StepIdle(s, w))
  {
    GoesOn(s, StepIdle(s, w), w);
  }

  // When the signal is cleared, the scan is still to come.
  lemma {:induction false} ClearOk(s: Sys, w: nat)
    requires Inv(s) && w < |s.ws| && s.ws[w].pc.Clear?
    ensures Inv(StepClear(s, w))
  {
    var s' := StepClear(s, w);
    forall v | 0 <= v < |s'.ws| ensures WorkerOk(s', v) {
      assert WorkerOk(s, v);
      forall g | g in s.ws[v].out ensures OutAt(s', v, g) { assert OutAt(s, v, g); }
    }
    forall g | 0 <= g < |s'.mem| ensures GroupOk(s', g) { assert GroupOk(s, g); }
    forall a, b | 0 <= a < |s'.ws| && 0 <= b < |s'.ws| ensures LinkOk(s', a, b) { assert LinkOk(s, a, b); }
    forall a, b | 0 <= a < |s'.ws| && 0 <= b < |s'.ws| ensures LogOk(s', a, b) { assert LogOk(s, a, b); }
  }

  lemma {:induction false} ScanOk(s: Sys, w: nat)
    requires Inv(s) && w < |s.ws| && s.ws[w].pc.Scan?
    ensures s.ws[w].pc.j <= |s.ws[w].slots| && Inv(StepScan(s, w))
  {
    assert WorkerOk(s, w);
    GoesOn(s, StepScan(s, w), w);
  }

  // Group `g` is still in slot `j`.
  lemma {:induction false} StillThere(s: Sys, w: nat)
    requires Inv(s) && w < |s.ws| && s.ws[w].pc.Found?
    ensures Sizes(s, w) && s.ws[w].pc.j < |s.ws| && s.ws[w].slots[s.ws[w].pc.j] == Some(s.ws[w].pc.g)
    ensures LinkOk(s, s.ws[w].pc.j, w) && s.ws[w].pc.g < |s.mem| && GroupOk(s, s.ws[w].pc.g)
  {
    assert WorkerOk(s, w) && LinkOk(s, s.ws[w].pc.j, w);
    assert GroupOk(s, s.ws[w].pc.g);
  }

  lemma {:induction false} TakeSelf(s: Sys, w: nat)
    requires Inv(s) && w < |s.ws| && s.ws[w].pc.Found?
    requires Sizes(s, w) && s.ws[w].pc.j < |s.ws| && s.ws[w].pc.g < |s.mem|
    ensures WorkerOk(StepFound(s, w), w)
  {
    StillThere(s, w);
    assert WorkerOk(s, w);
    forall h | h in s.ws[w].out ensures OutAt(StepFound(s, w), w, h) { assert OutAt(s, w, h); }
  }

  lemma {:induction false} TakeOther(s: Sys, w: nat, v: nat)
    requires Inv(s) && w < |s.ws| && s.ws[w].pc.Found? && v < |s.ws| && v != w
    requires Sizes(s, w) && s.ws[w].pc.j < |s.ws| && s.ws[w].pc.g < |s.mem|
    ensures WorkerOk(StepFound(s, w), v)
  {
    StillThere(s, w);
    assert WorkerOk(s, v);
    forall h | h in s.ws[v].out ensures OutAt(StepFound(s, w), v, h) { assert OutAt(s, v, h); }
  }

  lemma {:induction false} TakeLink(s: Sys, w: nat, a: nat, b: nat)
    requires Inv(s) && w < |s.ws| && s.ws[w].pc.Found? && a < |s.ws| && b < |s.ws|
    requires Sizes(s, w) && s.ws[w].pc.j < |s.ws| && s.ws[w].pc.g < |s.mem|
    ensures LinkOk(StepFound(s, w), a, b)
  {
    StillThere(s, w);
    assert LinkOk(s, a, b);
  }

  lemma {:induction false} TakeLogHere(s: Sys, w: nat, a: nat)
    requires Inv(s) && w < |s.ws| && s.ws[w].pc.Found? && a < |s.ws|
    requires Sizes(s, w) && s.ws[w].pc.j < |s.ws| && s.ws[w].pc.g < |s.mem|
    ensures LogOk(StepFound(s, w), a, w)
  {
    StillThere(s, w);
    var s', g := StepFound(s, w), s.ws[w].pc.g;
    assert LogOk(s, a, w) && LinkOk(s, a, w);
    OutBounds(s, a);
    InBounds(s, w);
    OutPartFrame(s.mem, s'.mem, s.ws[a].out, w);
    FlatFrame(s.mem, s'.mem, s.ws[w].inWork, a);
    FlatAppend(s'.mem, s.ws[w].inWork, g, a);
    assert InPart(s'.mem, s'.ws[w], a) == InPart(s.mem, s.ws[w], a) + (if s.mem[g].src == a then s.mem[g].msvs else []);
    assert InPart(s.mem, s.ws[w], a) + [] == InPart(s.mem, s.ws[w], a);
    SameLog(s, s', a, w);
  }

  lemma {:induction false} TakeLogAway(s: Sys, w: nat, a: nat, b: nat)
    requires Inv(s) && w < |s.ws| && s.ws[w].pc.Found? && a < |s.ws| && b < |s.ws| && b != w
    requires Sizes(s, w) && s.ws[w].pc.j < |s.ws| && s.ws[w].pc.g < |s.mem|
    ensures LogOk(StepFound(s, w), a, b)
  {
    StillThere(s, w);
    var s' := StepFound(s, w);
    assert LogOk(s, a, b) && LinkOk(s, a, b);
    OutBounds(s, a);
    InBounds(s, b);
    InPartFrame(s.mem, s'.mem, s.ws[b], a);
    OutPartFrame(s.mem, s'.mem, s.ws[a].out, b);
    SameLog(s, s', a, b);
  }

  // Taking group `g` from slot `j`.
  lemma {:induction false} FoundOk(s: Sys, w: nat)
    requires Inv(s) && w < |s.ws| && s.ws[w].pc.Found?
    ensures s.ws[w].pc.j < |s.ws[w].slots| && s.ws[w].pc.g < |s.mem| && Inv(StepFound(s, w))
  {
    StillThere(s, w);
    var s' := StepFound(s, w);
    forall v | 0 <= v < |s'.ws| ensures WorkerOk(s', v) { if v == w { TakeSelf(s, w); } else { TakeOther(s, w, v); } }
    forall g | 0 <= g < |s'.mem| ensures GroupOk(s', g) { assert GroupOk(s, g); }
    forall a, b | 0 <= a < |s'.ws| && 0 <= b < |s'.ws| ensures LinkOk(s', a, b) { TakeLink(s, w, a, b); }
    forall a, b | 0 <= a < |s'.ws| && 0 <= b < |s'.ws| ensures LogOk(s', a, b) {
      if b == w { TakeLogHere(s, w, a); } else { TakeLogAway(s, w, a, b); }
    }
  }

  // The ack goes back.
  lemma {:induction false} AckBackOk(s: Sys, w: nat)
    requires Inv(s) && w < |s.ws| && s.ws[w].pc.AckBack?
    ensures s.ws[w].pc.g < |s.mem| && s.mem[s.ws[w].pc.g].src < |s.ws| && w < |s.ws[s.mem[s.ws[w].pc.g].src].acks|
    ensures s.ws[s.mem[s.ws[w].pc.g].src].acks[w].Busy? && Inv(StepAckBack(s, w))
  {
    assert WorkerOk(s, w);
    var src := s.ws[w].pc.j;
    assert LinkOk(s, src, w) && WorkerOk(s, src);
    var s' := StepAckBack(s, w);
    forall v | 0 <= v < |s'.ws| ensures WorkerOk(s', v) { AckWorker(s, w, v); }
    forall g | 0 <= g < |s'.mem| ensures GroupOk(s', g) { assert GroupOk(s, g); }
    forall a, b | 0 <= a < |s'.ws| && 0 <= b < |s'.ws| ensures LinkOk(s', a, b) { AckLink(s, w, a, b); }
    forall a, b | 0 <= a < |s'.ws| && 0 <= b < |s'.ws| ensures LogOk(s', a, b) { assert LogOk(s, a, b); }
  }

  lemma {:induction false} AckWorker(s: Sys, w: nat, v: nat)
    requires Inv(s) && w < |s.ws| && v < |s.ws| && s.ws[w].pc.AckBack? && s.ws[w].pc.g < |s.mem|
    requires s.mem[s.ws[w].pc.g].src == s.ws[w].pc.j < |s.ws| && w < |s.ws[s.ws[w].pc.j].acks|
    ensures WorkerOk(StepAckBack(s, w), v)
  {
    assert WorkerOk(s, v);
    var s' := StepAckBack(s, w);
    forall g | g in s.ws[v].out ensures OutAt(s', v, g) { assert OutAt(s, v, g); }
  }

  lemma {:induction false} AckLink(s: Sys, w: nat, a: nat, b: nat)
    requires Inv(s) && w < |s.ws| && a < |s.ws| && b < |s.ws| && s.ws[w].pc.AckBack? && s.ws[w].pc.g < |s.mem|
    requires s.mem[s.ws[w].pc.g].src == s.ws[w].pc.j < |s.ws| && w < |s.ws[s.ws[w].pc.j].acks|
    ensures LinkOk(StepAckBack(s, w), a, b)
  {
    assert LinkOk(s, a, b);
  }
}
