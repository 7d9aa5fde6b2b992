/**
  How the kernels of cell.cpp pass missives from worker to worker.

  Every worker has, for every other worker, one slot that only that worker fills and an
  acknowledge flag that says whether its own slot over there may be filled. A group of
  missives stays in the memory of its sender until the receiver has marked it handled. The
  state machine has one step for every access to memory that another worker also uses.
 */
module Missives {
  import opened Options

  datatype Msv = Msv(dst: nat, body: nat)

  datatype Ack = Virgin | Ready | Busy

  // Where a group is: in out_work, in a slot, in an in_work, or handled.
  datatype Stage = InOut | InSlot | InWork | Done

  // agent_grp. `stage` is not in the source; it is `Done` just when `handled` is set there.
  datatype Group = Group(src: nat, dst: nat, msvs: seq<Msv>, stage: Stage, released: bool)

  // Where a worker is in handle_missives.
  datatype Pc =
    | Idle                        // before the test of the signal
    | Clear                       // found the signal set, not cleared yet
    | Scan(j: nat)                // process_signal, before slot `j`
    | Found(j: nat, g: nat)       // found group `g` in slot `j`, slot not cleared yet
    | AckBack(j: nat, g: nat)     // took group `g` from slot `j`, ack not set yet
    | Handle(i: nat)              // in_work, before missive `i` of its first group
    | Local                       // local_work
    | Out(k: nat)                 // out_work, before group `k`
    | Claim(k: nat)               // found the ack of group `k` ready, not set busy yet
    | Post(k: nat)                // set the ack of group `k` busy, slot not written yet
    | Signal(k: nat)              // wrote the slot, signal not set yet
    | Sent(k: nat)                // sent_work, before group `k`

  // `sentTo` and `handledFrom` record, by worker, the missives that were given to `send` and
  // those whose handler was called.
  datatype Worker = Worker(
    pc: Pc, local: seq<Msv>, out: seq<nat>, sent: seq<nat>, inWork: seq<nat>,
    slots: seq<Option<nat>>, acks: seq<Ack>, signal: bool,
    sentTo: seq<seq<Msv>>, handledFrom: seq<seq<Msv>>)

  datatype Sys = Sys(ws: seq<Worker>, mem: seq<Group>) {
    function At(w: nat, x: Worker): Sys
      requires w < |ws|
    {
      this.(ws := ws[w := x])
    }

    function Put(g: nat, x: Group): Sys
      requires g < |mem|
    {
      this.(mem := mem[g := x])
    }
  }

  function Cut<T>(s: seq<T>, k: nat): seq<T>
    requires k < |s|
  {
    s[..k] + s[k + 1..]
  }

  // The group of out_work for a destination: the first that add_out_missive finds.
  function OutGroup(mem: seq<Group>, out: seq<nat>, d: nat): Option<nat> {
    if out == [] then None
    else if out[0] < |mem| && mem[out[0]].dst == d then Some(out[0])
    else OutGroup(mem, out[1..], d)
  }

  // ---------------------------------------------------------------- the steps

  // missive::send, from a handler or the user function of worker `w`.
  function Send(s: Sys, w: nat, m: Msv): Sys
    requires w < |s.ws| && m.dst < |s.ws[w].sentTo|
  {
    var x := s.ws[w];
    s.At(w, x.(local := x.local + [m], sentTo := x.sentTo[m.dst := x.sentTo[m.dst] + [m]]))
  }

  // The test of the signal at the start of a pass.
  function StepIdle(s: Sys, w: nat): Sys
    requires w < |s.ws| && s.ws[w].pc.Idle?
  {
    var x := s.ws[w];
    s.At(w, x.(pc := if x.signal then Clear else Handle(0)))
  }

  // The signal is cleared.
  function StepClear(s: Sys, w: nat): Sys
    requires w < |s.ws| && s.ws[w].pc.Clear?
  {
    s.At(w, s.ws[w].(signal := false, pc := Scan(0)))
  }

  // process_signal: one slot is looked at.
  function StepScan(s: Sys, w: nat): Sys
    requires w < |s.ws| && s.ws[w].pc.Scan? && s.ws[w].pc.j <= |s.ws[w].slots|
  {
    var x := s.ws[w];
    var j := x.pc.j;
    if j == |x.slots| then s.At(w, x.(pc := Handle(0)))
    else s.At(w, x.(pc := match x.slots[j] case None => Scan(j + 1) case Some(g) => Found(j, g)))
  }

  // The slot is cleared, and its group goes to in_work.
  function StepFound(s: Sys, w: nat): Sys
    requires w < |s.ws| && s.ws[w].pc.Found? && s.ws[w].pc.j < |s.ws[w].slots| && s.ws[w].pc.g < |s.mem|
  {
    var x := s.ws[w];
    var j, g := x.pc.j, x.pc.g;
    s.Put(g, s.mem[g].(stage := InWork))
     .At(w, x.(slots := x.slots[j := None], inWork := x.inWork + [g], pc := AckBack(j, g)))
  }

  // The ack is set in the memory of the sender.
  function StepAckBack(s: Sys, w: nat): Sys
    requires w < |s.ws| && s.ws[w].pc.AckBack? && s.ws[w].pc.g < |s.mem|
    requires s.mem[s.ws[w].pc.g].src < |s.ws| && w < |s.ws[s.mem[s.ws[w].pc.g].src].acks|
  {
    var src := s.mem[s.ws[w].pc.g].src;
    var y := s.ws[src];
    var s1 := s.At(src, y.(acks := y.acks[w := Ready]));
    s1.At(w, s1.ws[w].(pc := Scan(s.ws[w].pc.j + 1)))
  }

  // call_handlers_of_group: one missive, or the mark at the end.
  function StepHandle(s: Sys, w: nat): Sys
    requires w < |s.ws| && s.ws[w].pc.Handle?
    requires forall g | g in s.ws[w].inWork :: g < |s.mem| && s.mem[g].src < |s.ws[w].handledFrom|
  {
    var x := s.ws[w];
    var i := x.pc.i;
    if x.inWork == [] then s.At(w, x.(pc := Local))
    else
      var g := x.inWork[0];
      assert g in x.inWork;
      var src := s.mem[g].src;
      if i < |s.mem[g].msvs| then
        s.At(w, x.(handledFrom := x.handledFrom[src := x.handledFrom[src] + [s.mem[g].msvs[i]]], pc := Handle(i + 1)))
      else
        s.Put(g, s.mem[g].(stage := Done)).At(w, x.(inWork := x.inWork[1..], pc := Handle(0)))
  }

  // add_out_missive
  function AddOut(s: Sys, w: nat, m: Msv): Sys
    requires w < |s.ws| && forall g | g in s.ws[w].out :: g < |s.mem|
  {
    var x := s.ws[w];
    match OutGroup(s.mem, x.out, m.dst)
    case Some(g) => if g < |s.mem| then s.Put(g, s.mem[g].(msvs := s.mem[g].msvs + [m])) else s
    case None =>
      s.(mem := s.mem + [Group(w, m.dst, [m], InOut, false)]).At(w, x.(out := x.out + [|s.mem|]))
  }

  // One missive of local_work, or (`more` false) the end of the loop over it.
  function StepLocal(s: Sys, w: nat, more: bool): Sys
    requires w < |s.ws| && s.ws[w].pc.Local? && w < |s.ws[w].handledFrom|
    requires forall g | g in s.ws[w].out :: g < |s.mem|
  {
    var x := s.ws[w];
    if x.local == [] || !more then s.At(w, x.(pc := Out(0)))
    else
      var m := x.local[0];
      var s1 := s.At(w, x.(local := x.local[1..]));
      if m.dst == w then s1.At(w, s1.ws[w].(handledFrom := x.handledFrom[w := x.handledFrom[w] + [m]]))
      else AddOut(s1, w, m)
  }

  // One group of out_work; `known` says whether the destination has been initialised and runs
  // the same module, which is asked before the first group goes there.
  function StepOut(s: Sys, w: nat, known: bool): Sys
    requires w < |s.ws| && s.ws[w].pc.Out? && s.ws[w].pc.k <= |s.ws[w].out|
    requires forall g | g in s.ws[w].out :: g < |s.mem| && s.mem[g].dst < |s.ws[w].acks|
  {
    var x := s.ws[w];
    var k := x.pc.k;
    if k == |x.out| then s.At(w, x.(pc := Sent(0)))
    else
      assert x.out[k] in x.out;
      var d := s.mem[x.out[k]].dst;
      s.At(w, x.(pc := if x.acks[d].Ready? || (x.acks[d].Virgin? && known) then Claim(k) else Out(k + 1)))
  }

  // The ack is set busy.
  function StepClaim(s: Sys, w: nat): Sys
    requires w < |s.ws| && s.ws[w].pc.Claim? && s.ws[w].pc.k < |s.ws[w].out| && s.ws[w].out[s.ws[w].pc.k] < |s.mem|
    requires s.mem[s.ws[w].out[s.ws[w].pc.k]].dst < |s.ws[w].acks|
  {
    var x := s.ws[w];
    s.At(w, x.(acks := x.acks[s.mem[x.out[x.pc.k]].dst := Busy], pc := Post(x.pc.k)))
  }

  // The slot is written in the memory of the receiver.
  function StepPost(s: Sys, w: nat): Sys
    requires w < |s.ws| && s.ws[w].pc.Post? && s.ws[w].pc.k < |s.ws[w].out| && s.ws[w].out[s.ws[w].pc.k] < |s.mem|
    requires s.mem[s.ws[w].out[s.ws[w].pc.k]].dst < |s.ws| && w < |s.ws[s.mem[s.ws[w].out[s.ws[w].pc.k]].dst].slots|
  {
    var k := s.ws[w].pc.k;
    var g := s.ws[w].out[k];
    var d := s.mem[g].dst;
    var y := s.ws[d];
    var s1 := s.Put(g, s.mem[g].(stage := InSlot)).At(d, y.(slots := y.slots[w := Some(g)]));
    s1.At(w, s1.ws[w].(pc := Signal(k)))
  }

  // The signal is set in the memory of the receiver, and the group goes to sent_work.
  function StepSignal(s: Sys, w: nat): Sys
    requires w < |s.ws| && s.ws[w].pc.Signal? && s.ws[w].pc.k < |s.ws[w].out| && s.ws[w].out[s.ws[w].pc.k] < |s.mem|
    requires s.mem[s.ws[w].out[s.ws[w].pc.k]].dst < |s.ws|
  {
    var k := s.ws[w].pc.k;
    var g := s.ws[w].out[k];
    var d := s.mem[g].dst;
    var s1 := s.At(d, s.ws[d].(signal := true));
    var x := s1.ws[w];
    s1.At(w, x.(out := Cut(x.out, k), sent := x.sent + [g], pc := Out(k)))
  }

  // One group of sent_work: it is released if the receiver has handled it.
  function StepSent(s: Sys, w: nat): Sys
    requires w < |s.ws| && s.ws[w].pc.Sent? && s.ws[w].pc.k <= |s.ws[w].sent|
    requires forall g | g in s.ws[w].sent :: g < |s.mem|
  {
    var x := s.ws[w];
    var k := x.pc.k;
    if k == |x.sent| then s.At(w, x.(pc := Idle))
    else
      var g := x.sent[k];
      assert g in x.sent;
      if s.mem[g].stage.Done? then s.Put(g, s.mem[g].(released := true)).At(w, x.(sent := Cut(x.sent, k)))
      else s.At(w, x.(pc := Sent(k + 1)))
  }
}
