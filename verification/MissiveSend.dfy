/**
  The steps that collect missives in groups and pass the groups on keep the invariant: adding to
  out_work, looking at the ack, writing the slot, setting the signal, and releasing what has
  been handled.
 */
module MissiveSend {
  import opened Options
  import opened Missives
  import opened MissiveInv
  import opened MissiveSteps
  import opened MissiveHandle

  // ---------------------------------------------------------------- add_out_missive

  // The next missive of local_work is for another worker.
  predicate Leaving(s: Sys, w: nat)
    requires w < |s.ws|
  {
    && s.ws[w].pc.Local? && Sizes(s, w) && (forall g | g in s.ws[w].out :: g < |s.mem|)
    && s.ws[w].local != [] && s.ws[w].local[0].dst != w && s.ws[w].local[0].dst < |s.ws|
  }

  ghost predicate Grouped(s: Sys, w: nat)
    requires w < |s.ws| && Leaving(s, w)
  {
    OutGroup(s.mem, s.ws[w].out, s.ws[w].local[0].dst).Some?
  }

  lemma {:induction false} JoinFacts(s: Sys, w: nat) returns (g: nat)
    requires Inv(s) && w < |s.ws| && Leaving(s, w) && Grouped(s, w)
    ensures OutGroup(s.mem, s.ws[w].out, s.ws[w].local[0].dst) == Some(g)
    ensures g in s.ws[w].out && g < |s.mem| && s.mem[g].dst == s.ws[w].local[0].dst && s.mem[g].src == w
    ensures s.mem[g].stage.InOut?
  {
    OutGroupFound(s.mem, s.ws[w].out, s.ws[w].local[0].dst);
    g := OutGroup(s.mem, s.ws[w].out, s.ws[w].local[0].dst).value;
    assert WorkerOk(s, w) && OutAt(s, w, g);
  }

  lemma {:induction false} JoinWorker(s: Sys, w: nat, v: nat)
    requires Inv(s) && w < |s.ws| && Leaving(s, w) && Grouped(s, w) && v < |s.ws|
    ensures WorkerOk(StepLocal(s, w, true), v)
  {
    var g := JoinFacts(s, w);
    assert WorkerOk(s, v);
    var s' := StepLocal(s, w, true);
    forall h | h in s.ws[v].out ensures OutAt(s', v, h) { assert OutAt(s, v, h); }
    forall i, j | 0 <= i < j < |s.ws[v].out| ensures OneDst(s'.mem, s.ws[v].out[i], s.ws[v].out[j]) {
      assert OneDst(s.mem, s.ws[v].out[i], s.ws[v].out[j]);
    }
  }

  lemma {:induction false} JoinLink(s: Sys, w: nat, a: nat, b: nat)
    requires Inv(s) && w < |s.ws| && Leaving(s, w) && Grouped(s, w) && a < |s.ws| && b < |s.ws|
    ensures LinkOk(StepLocal(s, w, true), a, b)
  {
    var g := JoinFacts(s, w);
    assert LinkOk(s, a, b);
  }

  lemma {:induction false} JoinLogHere(s: Sys, w: nat)
    requires Inv(s) && w < |s.ws| && Leaving(s, w) && Grouped(s, w)
    ensures LogOk(StepLocal(s, w, true), w, s.ws[w].local[0].dst)
  {
    var g := JoinFacts(s, w);
    var s' := StepLocal(s, w, true);
    var m := s.ws[w].local[0];
    var b := m.dst;
    assert LogOk(s, w, b) && LinkOk(s, w, b);
    OutBounds(s, w);
    InBounds(s, b);
    InPartFrame(s.mem, s'.mem, s.ws[b], w);
    OutGroupFrame(s.mem, s'.mem, s.ws[w].out, b);
    var o, l := OutPart(s.mem, s.ws[w].out, b), LocalPart(s.ws[w].local[1..], b);
    assert LocalPart(s.ws[w].local, b) == [m] + l;
    assert OutPart(s'.mem, s'.ws[w].out, b) == o + [m];
    var x := InPart(s.mem, s.ws[b], w) + SlotPart(s.mem, s.ws[b].slots[w]);
    assert x + o + ([m] + l) == x + (o + [m]) + l;
  }

  lemma {:induction false} JoinLogAway(s: Sys, w: nat, a: nat, b: nat)
    requires Inv(s) && w < |s.ws| && Leaving(s, w) && Grouped(s, w) && a < |s.ws| && b < |s.ws|
    requires a != w || b != s.ws[w].local[0].dst
    ensures LogOk(StepLocal(s, w, true), a, b)
  {
    var g := JoinFacts(s, w);
    var s' := StepLocal(s, w, true);
    assert LogOk(s, a, b) && LinkOk(s, a, b);
    OutBounds(s, a);
    InBounds(s, b);
    InPartFrame(s.mem, s'.mem, s.ws[b], a);
    assert InPart(s'.mem, s'.ws[b], a) == InPart(s'.mem, s.ws[b], a);
    if a == w { assert LocalPart(s.ws[w].local, b) == LocalPart(s.ws[w].local[1..], b); }
    OutPartFrame(s.mem, s'.mem, s.ws[a].out, b);
    SameLog(s, s', a, b);
  }

  lemma {:induction false} NewWorker(s: Sys, w: nat, v: nat)
    requires Inv(s) && w < |s.ws| && Leaving(s, w) && !Grouped(s, w) && v < |s.ws|
    ensures WorkerOk(StepLocal(s, w, true), v)
  {
    assert WorkerOk(s, v);
    var s' := StepLocal(s, w, true);
    OutGroupFound(s.mem, s.ws[w].out, s.ws[w].local[0].dst);
    forall h | h in s'.ws[v].out ensures OutAt(s', v, h) {
      if h < |s.mem| { assert OutAt(s, v, h); }
    }
    var out := s'.ws[v].out;
    forall i, j | 0 <= i < j < |out| ensures out[i] != out[j] && OneDst(s'.mem, out[i], out[j]) {
      assert out[i] in s.ws[v].out;
      if j < |s.ws[v].out| {
        assert OneDst(s.mem, s.ws[v].out[i], s.ws[v].out[j]);
      }
    }
  }

  lemma {:induction false} NewLink(s: Sys, w: nat, a: nat, b: nat)
    requires Inv(s) && w < |s.ws| && Leaving(s, w) && !Grouped(s, w) && a < |s.ws| && b < |s.ws|
    ensures LinkOk(StepLocal(s, w, true), a, b)
  {
    assert LinkOk(s, a, b) && WorkerOk(s, a);
  }

  lemma {:induction false} OutGroupAppend(mem: seq<Group>, out: seq<nat>, g: nat, d: nat)
    requires g < |mem|
    ensures OutGroup(mem, out + [g], d) ==
            if OutGroup(mem, out, d).Some? then OutGroup(mem, out, d) else if mem[g].dst == d then Some(g) else None
  {
    if out != [] {
      assert (out + [g])[1..] == out[1..] + [g];
      OutGroupAppend(mem, out[1..], g, d);
    } else {
      assert (out + [g])[1..] == [];
    }
  }

  lemma {:induction false} NewLog(s: Sys, w: nat, a: nat, b: nat)
    requires Inv(s) && w < |s.ws| && Leaving(s, w) && !Grouped(s, w) && a < |s.ws| && b < |s.ws|
    ensures LogOk(StepLocal(s, w, true), a, b)
  {
    var s' := StepLocal(s, w, true);
    var m := s.ws[w].local[0];
    assert LogOk(s, a, b) && LinkOk(s, a, b);
    OutBounds(s, a);
    InBounds(s, b);
    InPartFrame(s.mem, s'.mem, s.ws[b], a);
    assert InPart(s'.mem, s'.ws[b], a) == InPart(s'.mem, s.ws[b], a);
    OutGroupFrame(s.mem, s'.mem, s.ws[a].out, b);
    OutPartFrame(s.mem, s'.mem, s.ws[a].out, b);
    if a == w {
      OutGroupAppend(s'.mem, s.ws[w].out, |s.mem|, b);
      OutGroupFound(s.mem, s.ws[w].out, b);
    }
    if a == w && b == m.dst {
      var l := LocalPart(s.ws[w].local[1..], b);
      assert LocalPart(s.ws[w].local, b) == [m] + l;
      var x := InPart(s.mem, s.ws[b], a) + SlotPart(s.mem, s.ws[b].slots[a]);
      assert x + [] + ([m] + l) == x + [m] + l;
    } else {
      if a == w { assert LocalPart(s.ws[w].local, b) == LocalPart(s.ws[w].local[1..], b); }
      SameLog(s, s', a, b);
    }
  }

  lemma {:induction false} LocalOk(s: Sys, w: nat, more: bool)
    requires Inv(s) && w < |s.ws| && s.ws[w].pc.Local?
    ensures w < |s.ws[w].handledFrom| && forall g | g in s.ws[w].out :: g < |s.mem|
    ensures Inv(StepLocal(s, w, more))
  {
    assert WorkerOk(s, w);
    OutBounds(s, w);
    var s' := StepLocal(s, w, more);
    if s.ws[w].local == [] || !more {
      GoesOn(s, s', w);
    } else {
      assert s.ws[w].local[0] in s.ws[w].local;
      if s.ws[w].local[0].dst == w {
        SelfOk(s, w);
      } else if Grouped(s, w) {
        var g := JoinFacts(s, w);
        forall v | 0 <= v < |s'.ws| ensures WorkerOk(s', v) { JoinWorker(s, w, v); }
        forall g | 0 <= g < |s'.mem| ensures GroupOk(s', g) { assert GroupOk(s, g); }
        forall a, b | 0 <= a < |s'.ws| && 0 <= b < |s'.ws| ensures LinkOk(s', a, b) { JoinLink(s, w, a, b); }
        forall a, b | 0 <= a < |s'.ws| && 0 <= b < |s'.ws| ensures LogOk(s', a, b) {
          if a == w && b == s.ws[w].local[0].dst { JoinLogHere(s, w); } else { JoinLogAway(s, w, a, b); }
        }
      } else {
        forall v | 0 <= v < |s'.ws| ensures WorkerOk(s', v) { NewWorker(s, w, v); }
        forall g | 0 <= g < |s'.mem| ensures GroupOk(s', g) { if g < |s.mem| { assert GroupOk(s, g); } }
        forall a, b | 0 <= a < |s'.ws| && 0 <= b < |s'.ws| ensures LinkOk(s', a, b) { NewLink(s, w, a, b); }
        forall a, b | 0 <= a < |s'.ws| && 0 <= b < |s'.ws| ensures LogOk(s', a, b) { NewLog(s, w, a, b); }
      }
    }
  }

  // ---------------------------------------------------------------- the ack

  lemma {:induction false} OutOk(s: Sys, w: nat, known: bool)
    requires Inv(s) && w < |s.ws| && s.ws[w].pc.Out?
    ensures s.ws[w].pc.k <= |s.ws[w].out|
    ensures forall g | g in s.ws[w].out :: g < |s.mem| && s.mem[g].dst < |s.ws[w].acks|
    ensures Inv(StepOut(s, w, known))
  {
    OutBounds(s, w);
    assert WorkerOk(s, w);
    if s.ws[w].pc.k < |s.ws[w].out| {
      assert s.ws[w].out[s.ws[w].pc.k] in s.ws[w].out;
      assert OutAt(s, w, s.ws[w].out[s.ws[w].pc.k]);
    }
    GoesOn(s, StepOut(s, w, known), w);
  }

  // The ack is still what it was found to be.
  lemma {:induction false} ClaimWorker(s: Sys, w: nat, v: nat)
    requires Inv(s) && w < |s.ws| && s.ws[w].pc.Claim? && v < |s.ws|
    requires s.ws[w].pc.k < |s.ws[w].out| && s.ws[w].out[s.ws[w].pc.k] < |s.mem|
    requires s.mem[s.ws[w].out[s.ws[w].pc.k]].dst < |s.ws[w].acks|
    ensures WorkerOk(StepClaim(s, w), v)
  {
    assert WorkerOk(s, v);
    forall h | h in s.ws[v].out ensures OutAt(StepClaim(s, w), v, h) { assert OutAt(s, v, h); }
  }

  lemma {:induction false} ClaimOk(s: Sys, w: nat)
    requires Inv(s) && w < |s.ws| && s.ws[w].pc.Claim?
    ensures s.ws[w].pc.k < |s.ws[w].out| && s.ws[w].out[s.ws[w].pc.k] < |s.mem|
    ensures s.mem[s.ws[w].out[s.ws[w].pc.k]].dst < |s.ws[w].acks| && Inv(StepClaim(s, w))
  {
    assert WorkerOk(s, w);
    var s' := StepClaim(s, w);
    forall v | 0 <= v < |s'.ws| ensures WorkerOk(s', v) { ClaimWorker(s, w, v); }
    forall g | 0 <= g < |s'.mem| ensures GroupOk(s', g) { assert GroupOk(s, g); }
    forall a, b | 0 <= a < |s'.ws| && 0 <= b < |s'.ws| ensures LinkOk(s', a, b) { assert LinkOk(s, a, b); }
    forall a, b | 0 <= a < |s'.ws| && 0 <= b < |s'.ws| ensures LogOk(s', a, b) { assert LogOk(s, a, b); }
  }

  // ---------------------------------------------------------------- writing the slot

  // What worker `w` is going to write, and where.
  lemma {:induction false} PostFacts(s: Sys, w: nat) returns (g: nat, d: nat)
    requires Inv(s) && w < |s.ws| && s.ws[w].pc.Post?
    ensures s.ws[w].pc.k < |s.ws[w].out| && g == s.ws[w].out[s.ws[w].pc.k] && g < |s.mem| && g in s.ws[w].out
    ensures d == s.mem[g].dst && d < |s.ws| && d != w && s.mem[g].src == w && s.mem[g].stage.InOut?
    ensures Sizes(s, w) && Sizes(s, d) && s.ws[d].slots[w].None? && Posting(s, w, d) && !Acking(s, w, d)
    ensures s.ws[w].acks[d].Busy? && OutGroup(s.mem, s.ws[w].out, d) == Some(g)
  {
    assert WorkerOk(s, w);
    g := s.ws[w].out[s.ws[w].pc.k];
    assert OutAt(s, w, g);
    d := s.mem[g].dst;
    assert LinkOk(s, w, d);
    OutGroupIs(s.mem, s.ws[w].out, s.ws[w].pc.k);
  }

  lemma {:induction false} PostOther(s: Sys, w: nat, g: nat, d: nat, v: nat)
    requires Inv(s) && w < |s.ws| && s.ws[w].pc.Post? && v < |s.ws| && v != w
    requires s.ws[w].pc.k < |s.ws[w].out| && g == s.ws[w].out[s.ws[w].pc.k] && g < |s.mem|
    requires d == s.mem[g].dst && d < |s.ws| && w < |s.ws[d].slots|
    ensures WorkerOk(StepPost(s, w), v)
  {
    var g', d' := PostFacts(s, w);
    assert WorkerOk(s, v);
    var s', out := StepPost(s, w), s.ws[v].out;
    forall h | h in out ensures OutAt(s', v, h) && s'.mem[h] == s.mem[h] { assert OutAt(s, v, h); }
    forall i | 0 <= i < |out| ensures out[i] < |s.mem| && s'.mem[out[i]] == s.mem[out[i]] { assert out[i] in out; }
    forall i, j | 0 <= i < j < |out| ensures OneDst(s'.mem, out[i], out[j]) { assert OneDst(s.mem, out[i], out[j]); }
  }

  lemma {:induction false} PostSelf(s: Sys, w: nat, g: nat, d: nat)
    requires Inv(s) && w < |s.ws| && s.ws[w].pc.Post?
    requires s.ws[w].pc.k < |s.ws[w].out| && g == s.ws[w].out[s.ws[w].pc.k] && g < |s.mem|
    requires d == s.mem[g].dst && d < |s.ws| && w < |s.ws[d].slots|
    ensures WorkerOk(StepPost(s, w), w)
  {
    var g', d' := PostFacts(s, w);
    assert WorkerOk(s, w) && GroupOk(s, g);
    var s', out, k := StepPost(s, w), s.ws[w].out, s.ws[w].pc.k;
    forall h | h in out ensures OutAt(s', w, h) { assert OutAt(s, w, h); }
    forall i, j | 0 <= i < j < |out| ensures OneDst(s'.mem, out[i], out[j]) { assert OneDst(s.mem, out[i], out[j]); }
    forall i | 0 <= i < |out| && i != k ensures out[i] < |s'.mem| && s'.mem[out[i]].stage.InOut? {
      assert out[i] in out && OutAt(s, w, out[i]);
      assert if i < k then out[i] != out[k] else out[k] != out[i];
    }
  }

  lemma {:induction false} PostLink(s: Sys, w: nat, g: nat, d: nat, a: nat, b: nat)
    requires Inv(s) && w < |s.ws| && s.ws[w].pc.Post? && a < |s.ws| && b < |s.ws|
    requires s.ws[w].pc.k < |s.ws[w].out| && g == s.ws[w].out[s.ws[w].pc.k] && g < |s.mem|
    requires d == s.mem[g].dst && d < |s.ws| && w < |s.ws[d].slots|
    ensures LinkOk(StepPost(s, w), a, b)
  {
    var g', d' := PostFacts(s, w);
    assert LinkOk(s, a, b);
  }

  lemma {:induction false} PostLog(s: Sys, w: nat, g: nat, d: nat, a: nat, b: nat)
    requires Inv(s) && w < |s.ws| && s.ws[w].pc.Post? && a < |s.ws| && b < |s.ws|
    requires s.ws[w].pc.k < |s.ws[w].out| && g == s.ws[w].out[s.ws[w].pc.k] && g < |s.mem|
    requires d == s.mem[g].dst && d < |s.ws| && w < |s.ws[d].slots|
    ensures LogOk(StepPost(s, w), a, b)
  {
    var g', d' := PostFacts(s, w);
    var s' := StepPost(s, w);
    assert LogOk(s, a, b) && LinkOk(s, a, b);
    OutBounds(s, a);
    InBounds(s, b);
    InPartFrame(s.mem, s'.mem, s.ws[b], a);
    assert InPart(s'.mem, s'.ws[b], a) == InPart(s'.mem, s.ws[b], a);
    if a == w && b == d {
      OutGroupFrame(s.mem, s'.mem, s.ws[w].out, d);
      var x, y := InPart(s.mem, s.ws[b], a), s.mem[g].msvs;
      assert x + [] + y == x + y + [];
      SameLog(s, s', a, b);
    } else {
      OutPartFrame(s.mem, s'.mem, s.ws[a].out, b);
      SameLog(s, s', a, b);
    }
  }

  // The slot is empty when it is written.
  lemma {:induction false} PostOk(s: Sys, w: nat)
    requires Inv(s) && w < |s.ws| && s.ws[w].pc.Post?
    ensures s.ws[w].pc.k < |s.ws[w].out| && s.ws[w].out[s.ws[w].pc.k] < |s.mem|
    ensures var d := s.mem[s.ws[w].out[s.ws[w].pc.k]].dst;
            d < |s.ws| && w < |s.ws[d].slots| && s.ws[d].slots[w].None? && Inv(StepPost(s, w))
  {
    var g, d := PostFacts(s, w);
    var s' := StepPost(s, w);
    forall v | 0 <= v < |s'.ws| ensures WorkerOk(s', v) {
      if v == w { PostSelf(s, w, g, d); } else { PostOther(s, w, g, d, v); }
    }
    forall g | 0 <= g < |s'.mem| ensures GroupOk(s', g) { assert GroupOk(s, g); }
    forall a, b | 0 <= a < |s'.ws| && 0 <= b < |s'.ws| ensures LinkOk(s', a, b) { PostLink(s, w, g, d, a, b); }
    forall a, b | 0 <= a < |s'.ws| && 0 <= b < |s'.ws| ensures LogOk(s', a, b) { PostLog(s, w, g, d, a, b); }
  }

  // ---------------------------------------------------------------- setting the signal

  lemma {:induction false} CutMembers(gs: seq<nat>, k: nat)
    requires k < |gs|
    ensures forall g | g in Cut(gs, k) :: g in gs
    ensures forall g | g in gs && g != gs[k] :: g in Cut(gs, k)
    ensures NoneTwice(gs) ==> NoneTwice(Cut(gs, k)) && gs[k] !in Cut(gs, k)
  {
    var c := Cut(gs, k);
    forall g | g in gs && g != gs[k] ensures g in c {
      var i :| 0 <= i < |gs| && gs[i] == g;
      assert c[if i < k then i else i - 1] == g;
    }
  }

  // Without group `k`, out_work has the same group for every other destination.
  lemma {:induction false} OutGroupCut(mem: seq<Group>, out: seq<nat>, k: nat, d: nat)
    requires k < |out| && out[k] < |mem| && mem[out[k]].dst != d
    ensures OutGroup(mem, Cut(out, k), d) == OutGroup(mem, out, d)
  {
    if k == 0 {
      assert Cut(out, 0) == out[1..];
    } else {
      assert Cut(out, k)[1..] == Cut(out[1..], k - 1);
      OutGroupCut(mem, out[1..], k - 1, d);
    }
  }

  lemma {:induction false} SignalFacts(s: Sys, w: nat) returns (g: nat, d: nat)
    requires Inv(s) && w < |s.ws| && s.ws[w].pc.Signal?
    ensures s.ws[w].pc.k < |s.ws[w].out| && g == s.ws[w].out[s.ws[w].pc.k] && g < |s.mem| && g in s.ws[w].out
    ensures d == s.mem[g].dst && d < |s.ws| && d != w && s.mem[g].src == w && !s.mem[g].stage.InOut?
    ensures Sizes(s, w) && g !in s.ws[w].sent && !s.mem[g].released && OutGroup(s.mem, s.ws[w].out, d) == Some(g)
  {
    assert WorkerOk(s, w);
    g := s.ws[w].out[s.ws[w].pc.k];
    assert OutAt(s, w, g);
    d := s.mem[g].dst;
    OutGroupIs(s.mem, s.ws[w].out, s.ws[w].pc.k);
  }

  lemma {:induction false} SignalOuts(s: Sys, w: nat, i: nat)
    requires Inv(s) && w < |s.ws| && s.ws[w].pc.Signal? && s.ws[w].pc.k < |s.ws[w].out| && i < |s.ws[w].out| - 1
    ensures var cut := Cut(s.ws[w].out, s.ws[w].pc.k);
            && cut[i] in s.ws[w].out && cut[i] != s.ws[w].out[s.ws[w].pc.k] && cut[i] < |s.mem| && s.mem[cut[i]].stage.InOut?
            && OutAt(s, w, cut[i])
            && forall j | i < j < |cut| :: cut[i] != cut[j] && OneDst(s.mem, cut[i], cut[j])
  {
    assert WorkerOk(s, w);
    var out, k := s.ws[w].out, s.ws[w].pc.k;
    var i0 := if i < k then i else i + 1;
    assert Cut(out, k)[i] == out[i0] && out[i0] in out;
    assert if i0 < k then out[i0] != out[k] else out[k] != out[i0];
    assert OutAt(s, w, out[i0]);
    forall j | i < j < |out| - 1 ensures Cut(out, k)[i] != Cut(out, k)[j] && OneDst(s.mem, Cut(out, k)[i], Cut(out, k)[j]) {
      assert OneDst(s.mem, out[i0], out[if j < k then j else j + 1]);
    }
  }

  lemma {:induction false} SignalSelf(s: Sys, w: nat)
    requires Inv(s) && w < |s.ws| && s.ws[w].pc.Signal?
    requires s.ws[w].pc.k < |s.ws[w].out| && s.ws[w].out[s.ws[w].pc.k] < |s.mem|
    requires s.mem[s.ws[w].out[s.ws[w].pc.k]].dst < |s.ws|
    ensures WorkerOk(StepSignal(s, w), w)
  {
    var g, d := SignalFacts(s, w);
    assert WorkerOk(s, w);
    var s' := StepSignal(s, w);
    var cut := s'.ws[w].out;
    forall i | 0 <= i < |cut| ensures OutAt(s', w, cut[i]) { SignalOuts(s, w, i); }
    forall i, j | 0 <= i < j < |cut| ensures cut[i] != cut[j] && OneDst(s'.mem, cut[i], cut[j]) { SignalOuts(s, w, i); }
  }

  lemma {:induction false} SignalOther(s: Sys, w: nat, v: nat)
    requires Inv(s) && w < |s.ws| && s.ws[w].pc.Signal? && v < |s.ws| && v != w
    requires s.ws[w].pc.k < |s.ws[w].out| && s.ws[w].out[s.ws[w].pc.k] < |s.mem|
    requires s.mem[s.ws[w].out[s.ws[w].pc.k]].dst < |s.ws|
    ensures WorkerOk(StepSignal(s, w), v)
  {
    assert WorkerOk(s, v);
    var s' := StepSignal(s, w);
    forall g | g in s.ws[v].out ensures OutAt(s', v, g) { assert OutAt(s, v, g); }
  }

  lemma {:induction false} SignalLog(s: Sys, w: nat, a: nat, b: nat)
    requires Inv(s) && w < |s.ws| && s.ws[w].pc.Signal? && a < |s.ws| && b < |s.ws|
    requires s.ws[w].pc.k < |s.ws[w].out| && s.ws[w].out[s.ws[w].pc.k] < |s.mem|
    requires s.mem[s.ws[w].out[s.ws[w].pc.k]].dst < |s.ws|
    ensures LogOk(StepSignal(s, w), a, b)
  {
    var g, d := SignalFacts(s, w);
    var s', out, k := StepSignal(s, w), s.ws[w].out, s.ws[w].pc.k;
    assert LogOk(s, a, b);
    if a == w {
      if b == d {
        OutGroupFound(s.mem, Cut(out, k), d);
        CutOneDst(s, w, g, d);
      } else {
        OutGroupCut(s.mem, out, k, b);
      }
    }
    SameLog(s, s', a, b);
  }

  // There was only one group for that destination.
  lemma {:induction false} CutOneDst(s: Sys, w: nat, g: nat, d: nat)
    requires Inv(s) && w < |s.ws| && s.ws[w].pc.Signal? && s.ws[w].pc.k < |s.ws[w].out|
    requires g == s.ws[w].out[s.ws[w].pc.k] && g < |s.mem| && s.mem[g].dst == d
    ensures forall h | h in Cut(s.ws[w].out, s.ws[w].pc.k) :: h < |s.mem| && s.mem[h].dst != d
  {
    assert WorkerOk(s, w);
    var out, k := s.ws[w].out, s.ws[w].pc.k;
    forall h | h in Cut(out, k) ensures h < |s.mem| && s.mem[h].dst != d {
      var i :| 0 <= i < |out| - 1 && Cut(out, k)[i] == h;
      assert if i < k then OneDst(s.mem, out[i], out[k]) else OneDst(s.mem, out[k], out[i + 1]);
    }
  }

  lemma {:induction false} SignalOk(s: Sys, w: nat)
    requires Inv(s) && w < |s.ws| && s.ws[w].pc.Signal?
    ensures s.ws[w].pc.k < |s.ws[w].out| && s.ws[w].out[s.ws[w].pc.k] < |s.mem|
    ensures s.mem[s.ws[w].out[s.ws[w].pc.k]].dst < |s.ws| && Inv(StepSignal(s, w))
  {
    var g, d := SignalFacts(s, w);
    var s' := StepSignal(s, w);
    forall v | 0 <= v < |s'.ws| ensures WorkerOk(s', v) { if v == w { SignalSelf(s, w); } else { SignalOther(s, w, v); } }
    forall g | 0 <= g < |s'.mem| ensures GroupOk(s', g) { assert GroupOk(s, g); }
    forall a, b | 0 <= a < |s'.ws| && 0 <= b < |s'.ws| ensures LinkOk(s', a, b) { assert LinkOk(s, a, b); }
    forall a, b | 0 <= a < |s'.ws| && 0 <= b < |s'.ws| ensures LogOk(s', a, b) { SignalLog(s, w, a, b); }
  }

  // ---------------------------------------------------------------- sent_work

  // The next group of sent_work has been handled.
  predicate Finished(s: Sys, w: nat)
    requires w < |s.ws|
  {
    && Sizes(s, w) && s.ws[w].pc.Sent? && s.ws[w].pc.k < |s.ws[w].sent|
    && (forall g | g in s.ws[w].sent :: g < |s.mem|)
    && s.ws[w].sent[s.ws[w].pc.k] in s.ws[w].sent && s.mem[s.ws[w].sent[s.ws[w].pc.k]].stage.Done?
  }

  lemma {:induction false} ReleaseSelf(s: Sys, w: nat)
    requires Inv(s) && w < |s.ws| && Finished(s, w)
    ensures WorkerOk(StepSent(s, w), w)
  {
    assert WorkerOk(s, w);
    var s' := StepSent(s, w);
    CutMembers(s.ws[w].sent, s.ws[w].pc.k);
    forall h | h in s.ws[w].out ensures OutAt(s', w, h) { assert OutAt(s, w, h); }
  }

  lemma {:induction false} ReleaseOther(s: Sys, w: nat, v: nat)
    requires Inv(s) && w < |s.ws| && Finished(s, w) && v < |s.ws| && v != w
    ensures WorkerOk(StepSent(s, w), v)
  {
    var g := s.ws[w].sent[s.ws[w].pc.k];
    assert g in s.ws[w].sent && WorkerOk(s, w);
    var src := s.mem[g].src;
    var s' := StepSent(s, w);
    assert WorkerOk(s, v);
    forall h | h in s.ws[v].out ensures OutAt(s', v, h) { assert OutAt(s, v, h); }
    if s.ws[v].pc.Signal? { var h, d := SignalFacts(s, v); }
  }

  lemma {:induction false} ReleaseLog(s: Sys, w: nat, a: nat, b: nat)
    requires Inv(s) && w < |s.ws| && Finished(s, w) && a < |s.ws| && b < |s.ws|
    ensures LogOk(StepSent(s, w), a, b)
  {
    var s' := StepSent(s, w);
    assert LogOk(s, a, b) && LinkOk(s, a, b);
    OutBounds(s, a);
    InBounds(s, b);
    OutPartFrame(s.mem, s'.mem, s.ws[a].out, b);
    InPartFrame(s.mem, s'.mem, s.ws[b], a);
    SameLog(s, s', a, b);
  }

  lemma {:induction false} ReleaseLink(s: Sys, w: nat, a: nat, b: nat)
    requires Inv(s) && w < |s.ws| && Finished(s, w) && a < |s.ws| && b < |s.ws|
    ensures LinkOk(StepSent(s, w), a, b)
  {
    assert LinkOk(s, a, b) && WorkerOk(s, a);
  }

  lemma {:induction false} Released(s: Sys, w: nat)
    requires Inv(s) && w < |s.ws| && Finished(s, w)
    ensures Inv(StepSent(s, w))
  {
    var s' := StepSent(s, w);
    forall v | 0 <= v < |s'.ws| ensures WorkerOk(s', v) {
      if v == w { ReleaseSelf(s, w); } else { ReleaseOther(s, w, v); }
    }
    forall g | 0 <= g < |s'.mem| ensures GroupOk(s', g) { assert GroupOk(s, g); }
    forall a, b | 0 <= a < |s'.ws| && 0 <= b < |s'.ws| ensures LinkOk(s', a, b) { ReleaseLink(s, w, a, b); }
    forall a, b | 0 <= a < |s'.ws| && 0 <= b < |s'.ws| ensures LogOk(s', a, b) { ReleaseLog(s, w, a, b); }
  }

  lemma {:induction false} SentOk(s: Sys, w: nat)
    requires Inv(s) && w < |s.ws| && s.ws[w].pc.Sent?
    ensures s.ws[w].pc.k <= |s.ws[w].sent| && (forall g | g in s.ws[w].sent :: g < |s.mem|)
    ensures Inv(StepSent(s, w))
  {
    assert WorkerOk(s, w);
    if s.ws[w].pc.k < |s.ws[w].sent| { assert s.ws[w].sent[s.ws[w].pc.k] in s.ws[w].sent; }
    if Finished(s, w) { Released(s, w); } else { GoesOn(s, StepSent(s, w), w); }
  }
}
