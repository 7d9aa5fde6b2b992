/**
  What every step of the missive machine keeps: the missives under way between two workers in
  the order in which they were sent, the place of every group, and the agreement of slot, ack
  and signal.
 */
module MissiveInv {
  import opened Options
  import opened Missives

  // ---------------------------------------------------------------- missives under way

  // The missives of some groups that come from worker `a`.
  function Flat(mem: seq<Group>, gs: seq<nat>, a: nat): seq<Msv> {
    if gs == [] then []
    else (if gs[0] < |mem| && mem[gs[0]].src == a then mem[gs[0]].msvs else []) + Flat(mem, gs[1..], a)
  }

  // in_work, without what has been handled of its first group.
  function InPart(mem: seq<Group>, x: Worker, a: nat): seq<Msv> {
    if x.pc.Handle? && x.inWork != [] && x.inWork[0] < |mem| && x.pc.i <= |mem[x.inWork[0]].msvs| then
      (if mem[x.inWork[0]].src == a then mem[x.inWork[0]].msvs[x.pc.i..] else []) + Flat(mem, x.inWork[1..], a)
    else Flat(mem, x.inWork, a)
  }

  function SlotPart(mem: seq<Group>, slot: Option<nat>): seq<Msv> {
    if slot.Some? && slot.value < |mem| then mem[slot.value].msvs else []
  }

  // The group for `b` in out_work, unless it is in the slot already.
  function OutPart(mem: seq<Group>, out: seq<nat>, b: nat): seq<Msv> {
    match OutGroup(mem, out, b)
    case None => []
    case Some(g) => if g < |mem| && mem[g].stage.InOut? then mem[g].msvs else []
  }

  function LocalPart(local: seq<Msv>, b: nat): seq<Msv> {
    if local == [] then [] else (if local[0].dst == b then [local[0]] else []) + LocalPart(local[1..], b)
  }

  // What worker `a` has sent to worker `b` and `b` has not handled yet, oldest first.
  function Transit(s: Sys, a: nat, b: nat): seq<Msv>
    requires a < |s.ws| && b < |s.ws| && a < |s.ws[b].slots|
  {
    var rest := LocalPart(s.ws[a].local, b);
    if a == b then rest
    else InPart(s.mem, s.ws[b], a) + SlotPart(s.mem, s.ws[b].slots[a]) + OutPart(s.mem, s.ws[a].out, b) + rest
  }

  // ---------------------------------------------------------------- the invariant

  predicate NoneTwice(gs: seq<nat>) {
    forall i, j | 0 <= i < j < |gs| :: gs[i] != gs[j]
  }

  predicate Sizes(s: Sys, w: nat)
    requires w < |s.ws|
  {
    var x, n := s.ws[w], |s.ws|;
    |x.slots| == n && |x.acks| == n && |x.sentTo| == n && |x.handledFrom| == n
  }

  // Group `g` of out_work.
  predicate OutAt(s: Sys, w: nat, g: nat)
    requires w < |s.ws|
  {
    && g < |s.mem| && s.mem[g].src == w && s.mem[g].dst < |s.ws| && s.mem[g].dst != w
    && (s.mem[g].stage.InOut? || s.ws[w].pc.Signal?)
    && g !in s.ws[w].sent
  }

  predicate WorkerOk(s: Sys, w: nat)
    requires w < |s.ws|
  {
    var x := s.ws[w];
    && Sizes(s, w)
    && (forall m | m in x.local :: m.dst < |s.ws|)
    && (forall g | g in x.out :: OutAt(s, w, g))
    && (forall i, j | 0 <= i < j < |x.out| :: x.out[i] != x.out[j] && OneDst(s.mem, x.out[i], x.out[j]))
    && (forall g | g in x.sent :: g < |s.mem| && s.mem[g].src == w && !s.mem[g].stage.InOut? && !s.mem[g].released)
    && NoneTwice(x.sent)
    && (forall g | g in x.inWork :: g < |s.mem| && s.mem[g].dst == w && s.mem[g].src < |s.ws| && s.mem[g].stage.InWork?)
    && NoneTwice(x.inWork)
    && PcOk(s, w)
  }

  // Two groups of out_work do not have the same destination.
  predicate OneDst(mem: seq<Group>, g: nat, h: nat) {
    g < |mem| && h < |mem| && mem[g].dst != mem[h].dst
  }

  predicate PcOk(s: Sys, w: nat)
    requires w < |s.ws|
  {
    var x := s.ws[w];
    match x.pc
    case Scan(j) => j <= |s.ws|
    case Found(j, g) => j < |s.ws| && j < |x.slots| && x.slots[j] == Some(g)
    case AckBack(j, g) => j < |s.ws| && g < |s.mem| && s.mem[g].src == j && s.mem[g].dst == w && j != w
    case Handle(i) => i > 0 ==> x.inWork != [] && x.inWork[0] < |s.mem| && i <= |s.mem[x.inWork[0]].msvs|
    case Out(k) => k <= |x.out|
    case Claim(k) =>
      && k < |x.out| && x.out[k] < |s.mem| && s.mem[x.out[k]].stage.InOut?
      && s.mem[x.out[k]].dst < |x.acks| && !x.acks[s.mem[x.out[k]].dst].Busy?
    case Post(k) => k < |x.out| && x.out[k] < |s.mem| && s.mem[x.out[k]].stage.InOut?
    case Signal(k) =>
      && k < |x.out| && x.out[k] < |s.mem| && !s.mem[x.out[k]].stage.InOut? && !s.mem[x.out[k]].released
      && forall i | 0 <= i < |x.out| && i != k :: x.out[i] < |s.mem| && s.mem[x.out[i]].stage.InOut?
    case Sent(k) => k <= |x.sent|
    case _ => true
  }

  predicate GroupOk(s: Sys, g: nat)
    requires g < |s.mem|
  {
    s.mem[g].src < |s.ws| && s.mem[g].dst < |s.ws| && s.mem[g].src != s.mem[g].dst
    && (s.mem[g].released ==> s.mem[g].stage.Done?)
  }

  // Worker `a` is between setting its ack for `b` busy and writing the slot.
  predicate Posting(s: Sys, a: nat, b: nat)
    requires a < |s.ws|
  {
    var x := s.ws[a];
    x.pc.Post? && x.pc.k < |x.out| && x.out[x.pc.k] < |s.mem| && s.mem[x.out[x.pc.k]].dst == b
  }

  // Worker `a` has written the slot at `b` and is going to set the signal.
  predicate Signalling(s: Sys, a: nat, b: nat)
    requires a < |s.ws|
  {
    var x := s.ws[a];
    x.pc.Signal? && x.pc.k < |x.out| && x.out[x.pc.k] < |s.mem| && s.mem[x.out[x.pc.k]].dst == b
  }

  // Worker `b` has taken the slot of `a` and is going to set the ack ready.
  predicate Acking(s: Sys, a: nat, b: nat)
    requires b < |s.ws|
  {
    s.ws[b].pc.AckBack? && s.ws[b].pc.j == a
  }

  // The scan of `b` has not passed slot `a` yet.
  predicate Scanning(s: Sys, a: nat, b: nat)
    requires b < |s.ws|
  {
    var pc := s.ws[b].pc;
    pc.Clear? || ((pc.Scan? || pc.Found?) && pc.j <= a) || (pc.AckBack? && pc.j < a)
  }

  // Slot, ack and signal agree.
  predicate LinkOk(s: Sys, a: nat, b: nat)
    requires a < |s.ws| && b < |s.ws|
  {
    && Sizes(s, a) && Sizes(s, b)
    && var slot := s.ws[b].slots[a];
    && (slot.Some? ==>
          && slot.value < |s.mem| && s.mem[slot.value].src == a && s.mem[slot.value].dst == b
          && s.mem[slot.value].stage.InSlot?
          && !Posting(s, a, b) && !Acking(s, a, b)
          && (s.ws[b].signal || Signalling(s, a, b) || Scanning(s, a, b)))
    && (Posting(s, a, b) ==> !Acking(s, a, b))
    && (slot.Some? || Posting(s, a, b) || Acking(s, a, b) ==> s.ws[a].acks[b].Busy?)
  }

  // What was sent is what was handled and what is under way, in this order.
  predicate LogOk(s: Sys, a: nat, b: nat)
    requires a < |s.ws| && b < |s.ws|
  {
    && Sizes(s, a) && Sizes(s, b)
    && s.ws[a].sentTo[b] == s.ws[b].handledFrom[a] + Transit(s, a, b)
  }

  ghost predicate Inv(s: Sys) {
    && (forall w {:trigger WorkerOk(s, w)} | 0 <= w < |s.ws| :: WorkerOk(s, w))
    && (forall g {:trigger GroupOk(s, g)} | 0 <= g < |s.mem| :: GroupOk(s, g))
    && (forall a, b {:trigger LinkOk(s, a, b)} | 0 <= a < |s.ws| && 0 <= b < |s.ws| :: LinkOk(s, a, b))
    && (forall a, b {:trigger LogOk(s, a, b)} | 0 <= a < |s.ws| && 0 <= b < |s.ws| :: LogOk(s, a, b))
  }
}
