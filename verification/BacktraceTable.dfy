/** The lock-free table of backtraces: concurrent calls of get_ht_pos, one atomic access per step. */
module BacktraceTable {

  /** The next access of a call that looks for its slot */
  datatype Stage = Load | ReadSize | AssertSize | Cas

  /** Where a call is; `want` is the hash it was called with, `hash` the one it looks for now. */
  datatype Pc =
    | Idle
    | Probe(stage: Stage, want: nat, hash: nat, force: bool, pos: nat, wasOverflow: bool)
    | Count(want: nat, hash: nat, pos: nat)
    | Done(want: nat, pos: nat)
    | Aborted

  /** The slots hold hashes, 0 for a free one; `unknown` is the hash of the backtrace used when the table is full. */
  datatype State = State(ht: seq<nat>, htSize: nat, threads: seq<Pc>, unknown: nat)

  function Start(want: nat, hash: nat, force: bool, size: nat): Pc
    requires size > 0
  {
    Probe(Load, want, hash, force, hash % size, false)
  }

  /** The next slot: one wrap around the end is allowed. */
  function Advance(pc: Pc, size: nat): Pc
    requires pc.Probe? && pc.pos < size
  {
    if pc.pos + 1 == size then
      if pc.wasOverflow then Aborted else pc.(stage := Load, pos := 0, wasOverflow := true)
    else
      pc.(stage := Load, pos := pc.pos + 1)
  }

  predicate WellFormed(s: State) {
    && |s.ht| > 0 && s.unknown > 0
    && forall t :: 0 <= t < |s.threads| ==>
         var pc := s.threads[t];
         match pc
         case Idle => true
         case Aborted => true
         case Done(_, pos) => pos < |s.ht|
         case _ => pc.pos < |s.ht| && pc.hash > 0
  }

  /** One step of thread t */
  ghost predicate Step(s: State, s': State, t: nat)
    requires WellFormed(s) && t < |s.threads|
  {
    var pc, size := s.threads[t], |s.ht|;
    match pc
    case Idle =>
      exists want: nat :: want > 0 && s' == Goto(s, t, Start(want, want, false, size))
    case Probe(Load, want, hash, _, pos, _) =>
      s' == Goto(s, t, if s.ht[pos] == 0 then pc.(stage := ReadSize)
                       else if s.ht[pos] == hash then Done(want, pos)
                       else Advance(pc, size))
    case Probe(ReadSize, want, _, force, _, _) =>
      s' == Goto(s, t, if s.htSize <= size / 2 then pc.(stage := Cas)
                       else if force then pc.(stage := AssertSize)
                       else Start(want, s.unknown, true, size))
    case Probe(AssertSize, _, _, _, _, _) =>
      s' == Goto(s, t, if s.htSize * 10 < size * 7 then pc.(stage := Cas) else Aborted)
    case Probe(Cas, want, hash, _, pos, _) =>
      s' == if s.ht[pos] == 0 then Goto(s, t, Count(want, hash, pos)).(ht := s.ht[pos := hash])
            else Goto(s, t, pc.(stage := Load))
    case Count(want, hash, pos) =>
      s' == Goto(s, t, Done(want, pos)).(htSize := s.htSize + 1)
    case Done(_, _) =>
      s' == Goto(s, t, Idle)
    case Aborted => false
  }

  function Goto(s: State, t: nat, pc: Pc): State
    requires t < |s.threads|
  {
    s.(threads := s.threads[t := pc])
  }

  predicate Init(s: State) {
    && |s.ht| > 0 && s.unknown > 0 && s.htSize == 0
    && (forall p :: 0 <= p < |s.ht| ==> s.ht[p] == 0)
    && (forall t :: 0 <= t < |s.threads| ==> s.threads[t] == Idle)
  }

  ghost predicate Next(s: State, s': State)
    requires WellFormed(s)
  {
    exists t :: 0 <= t < |s.threads| && Step(s, s', t)
  }

  /** A run: any number of steps of any threads in any order */
  ghost predicate Run(states: seq<State>)
    decreases |states|
  {
    && |states| > 0
    && var last := |states| - 1;
       if last == 0 then Init(states[0])
       else Run(states[..last]) && WellFormed(states[last - 1]) && Next(states[last - 1], states[last])
  }

  // ---------- The probe sequence

  /** Slot q comes before slot p on the way from `home`. */
  predicate Before(home: nat, q: nat, p: nat) {
    if home <= p then home <= q < p else q < p || home <= q
  }

  /** The slots that a call has passed: they are taken, by other hashes. */
  predicate Passed(ht: seq<nat>, hash: nat, pos: nat, wasOverflow: bool)
    requires |ht| > 0
  {
    var home := hash % |ht|;
    && (wasOverflow <==> pos < home)
    && forall q :: 0 <= q < |ht| && Before(home, q, pos) ==> ht[q] != 0 && ht[q] != hash
  }

  // ---------- The invariant

  /** No hash is in two slots. */
  predicate Distinct(ht: seq<nat>) {
    forall p, q :: 0 <= p < q < |ht| && ht[p] != 0 ==> ht[p] != ht[q]
  }

  /** From its home, every hash is reached through taken slots. */
  predicate Reachable(ht: seq<nat>)
    requires |ht| > 0
  {
    forall p, q :: 0 <= p < |ht| && 0 <= q < |ht| && ht[p] != 0 && Before(ht[p] % |ht|, q, p) ==> ht[q] != 0
  }

  /** Few enough threads for the table: it never fills up, and the assertion on its load holds. */
  predicate FewThreads(s: State) {
    10 * (|s.ht| / 2 + |s.threads| + 1) < 7 * |s.ht|
  }

  predicate IsFull(ht: seq<nat>) {
    forall p :: 0 <= p < |ht| ==> ht[p] != 0
  }

  predicate MoreThanHalf(s: State) {
    s.htSize > |s.ht| / 2
  }

  /** A call may answer the slot of its own hash, and of the unknown one only if more than half of the slots have been
      counted. */
  predicate IsAnswer(s: State, want: nat, hash: nat) {
    hash == want || (hash == s.unknown && MoreThanHalf(s))
  }

  predicate ThreadInv(s: State, pc: Pc)
    requires |s.ht| > 0
  {
    match pc
    case Idle => true
    case Aborted => !FewThreads(s)
    case Done(want, pos) => pos < |s.ht| && s.ht[pos] != 0 && IsAnswer(s, want, s.ht[pos])
    case Count(want, hash, pos) =>
      pos < |s.ht| && s.ht[pos] == hash && hash > 0 && IsAnswer(s, want, hash)
    case _ =>
      && pc.pos < |s.ht| && pc.hash > 0
      && (if pc.force then pc.hash == s.unknown && MoreThanHalf(s) else pc.hash == pc.want)
      && (pc.stage.AssertSize? ==> pc.force)
      && (Passed(s.ht, pc.hash, pc.pos, pc.wasOverflow) || IsFull(s.ht))
  }

  function Taken(ht: seq<nat>): nat {
    if ht == [] then 0 else (if ht[0] != 0 then 1 else 0) + Taken(ht[1..])
  }

  /** The slots taken by hashes other than `unknown` */
  function Known(ht: seq<nat>, unknown: nat): nat {
    if ht == [] then 0 else (if ht[0] != 0 && ht[0] != unknown then 1 else 0) + Known(ht[1..], unknown)
  }

  /** Threads that took a slot and have not counted it yet */
  function Counting(threads: seq<Pc>): nat {
    if threads == [] then 0 else (if threads[0].Count? then 1 else 0) + Counting(threads[1..])
  }

  /** The thread may take a slot because it found the table at most half full. */
  predicate HasLicense(pc: Pc) {
    pc.Probe? && pc.stage.Cas? && !pc.force
  }

  function Licensed(threads: seq<Pc>): nat {
    if threads == [] then 0 else (if HasLicense(threads[0]) then 1 else 0) + Licensed(threads[1..])
  }

  predicate Inv(s: State) {
    && |s.ht| > 0 && s.unknown > 0
    && Distinct(s.ht) && Reachable(s.ht)
    && (forall t :: 0 <= t < |s.threads| ==> ThreadInv(s, s.threads[t]))
    && Taken(s.ht) == s.htSize + Counting(s.threads)
    && Known(s.ht, s.unknown) + Licensed(s.threads) <= |s.ht| / 2 + |s.threads|
  }

  // ---------- Counting slots and threads

  lemma {:induction false} TakeSlot(ht: seq<nat>, p: nat, h: nat, unknown: nat)
    requires p < |ht| && ht[p] == 0 && h > 0
    ensures Taken(ht[p := h]) == Taken(ht) + 1
    ensures Known(ht[p := h], unknown) == Known(ht, unknown) + if h == unknown then 0 else 1
  {
    if p == 0 {
      assert ht[p := h][1..] == ht[1..];
    } else {
      assert ht[p := h][1..] == ht[1..][p - 1 := h];
      TakeSlot(ht[1..], p - 1, h, unknown);
    }
  }

  lemma {:induction false} MostAreKnown(ht: seq<nat>, unknown: nat)
    requires Distinct(ht) && unknown > 0
    ensures Known(ht, unknown) <= Taken(ht) <= Known(ht, unknown) + 1
    ensures unknown !in ht ==> Taken(ht) == Known(ht, unknown)
  {
    if ht != [] {
      assert forall p :: 0 <= p < |ht| - 1 ==> ht[1..][p] == ht[p + 1];
      MostAreKnown(ht[1..], unknown);
    }
  }

  lemma {:induction false} FullTable(ht: seq<nat>)
    requires forall p :: 0 <= p < |ht| ==> ht[p] != 0
    ensures Taken(ht) == |ht|
  {
    if ht != [] {
      FullTable(ht[1..]);
    }
  }

  lemma {:induction false} ThreadMoves(threads: seq<Pc>, t: nat, pc: Pc)
    requires t < |threads|
    ensures Counting(threads[t := pc]) + (if threads[t].Count? then 1 else 0)
            == Counting(threads) + if pc.Count? then 1 else 0
    ensures Licensed(threads[t := pc]) + (if HasLicense(threads[t]) then 1 else 0)
            == Licensed(threads) + if HasLicense(pc) then 1 else 0
  {
    if t == 0 {
      assert threads[t := pc][1..] == threads[1..];
    } else {
      assert threads[t := pc][1..] == threads[1..][t - 1 := pc];
      ThreadMoves(threads[1..], t - 1, pc);
    }
  }

  lemma {:induction false} BusyThreads(threads: seq<Pc>)
    ensures Counting(threads) + Licensed(threads) <= |threads|
  {
    if threads != [] {
      BusyThreads(threads[1..]);
    }
  }

  lemma OneThreadElse(threads: seq<Pc>, t: nat)
    requires t < |threads| && !threads[t].Count? && !HasLicense(threads[t])
    ensures Counting(threads) + Licensed(threads) < |threads|
  {
    var busy := Count(0, 0, 0);
    ThreadMoves(threads, t, busy);
    BusyThreads(threads[t := busy]);
  }

  // ---------- Every step keeps the invariant

  lemma BeforeIsTotal(home: nat, p: nat, q: nat)
    requires p != q
    ensures Before(home, p, q) || Before(home, q, p)
  {
  }

  /** With few threads the load stays below the cap. */
  lemma NotFull(s: State)
    requires Inv(s) && FewThreads(s)
    ensures s.htSize * 10 < |s.ht| * 7 && !IsFull(s.ht)
  {
    MostAreKnown(s.ht, s.unknown);
    if IsFull(s.ht) {
      FullTable(s.ht);
    }
  }

  /** A slot with another hash is passed; only in a full table can a probe come round to its home again. */
  lemma AdvancePasses(s: State, pc: Pc)
    requires Inv(s) && pc.Probe? && ThreadInv(s, pc)
    requires s.ht[pc.pos] != 0 && s.ht[pc.pos] != pc.hash
    ensures ThreadInv(s, Advance(pc, |s.ht|))
  {
    hide Inv, Distinct, Reachable, Taken, Known, Counting, Licensed;
    var home, size := pc.hash % |s.ht|, |s.ht|;
    if FewThreads(s) {
      NotFull(s);
    }
    if !IsFull(s.ht) {
      var free :| 0 <= free < size && s.ht[free] == 0;
      assert !Before(home, free, pc.pos) && free != pc.pos;
    }
  }

  /** The other threads do not notice that a free slot is taken. */
  lemma OthersKeep(s: State, pc: Pc, p: nat, h: nat)
    requires |s.ht| > 0 && ThreadInv(s, pc) && p < |s.ht| && s.ht[p] == 0 && h > 0
    ensures ThreadInv(s.(ht := s.ht[p := h]), pc)
  {
  }

  /** Taking the free slot at the end of a probe keeps hashes unique and reachable. */
  lemma TakingKeepsTable(ht: seq<nat>, pc: Pc)
    requires |ht| > 0 && Distinct(ht) && Reachable(ht)
    requires pc.Probe? && pc.pos < |ht| && pc.hash > 0 && Passed(ht, pc.hash, pc.pos, pc.wasOverflow) && ht[pc.pos] == 0
    ensures Distinct(ht[pc.pos := pc.hash]) && Reachable(ht[pc.pos := pc.hash])
  {
    forall q | 0 <= q < |ht| && q != pc.pos
      ensures ht[q] != pc.hash
    {
      BeforeIsTotal(pc.hash % |ht|, q, pc.pos);
    }
  }

  /** A step that leaves the table alone */
  lemma MoveKeepsInv(s: State, t: nat, pc: Pc)
    requires Inv(s) && t < |s.threads| && ThreadInv(s, pc) && !pc.Count? && !s.threads[t].Count?
    requires HasLicense(pc) ==> s.htSize <= |s.ht| / 2
    ensures Inv(Goto(s, t, pc))
  {
    hide Passed, Distinct, Reachable;
    ThreadMoves(s.threads, t, pc);
    if HasLicense(pc) && !HasLicense(s.threads[t]) {
      OneThreadElse(s.threads, t);
      MostAreKnownIn(s);
    }
  }

  lemma MostAreKnownIn(s: State)
    requires Inv(s)
    ensures Known(s.ht, s.unknown) <= Taken(s.ht) <= Known(s.ht, s.unknown) + 1
  {
    MostAreKnown(s.ht, s.unknown);
  }

  lemma TakeKeepsInv(s: State, t: nat)
    requires Inv(s) && t < |s.threads| && s.threads[t].Probe? && s.threads[t].stage.Cas?
    requires s.ht[s.threads[t].pos] == 0
    ensures var pc := s.threads[t];
            Inv(Goto(s, t, Count(pc.want, pc.hash, pc.pos)).(ht := s.ht[pc.pos := pc.hash]))
  {
    hide Passed, Distinct, Reachable;
    var pc := s.threads[t];
    ThreadMoves(s.threads, t, Count(pc.want, pc.hash, pc.pos));
    TakeSlot(s.ht, pc.pos, pc.hash, s.unknown);
    TakingKeepsTable(s.ht, pc);
    forall u | 0 <= u < |s.threads|
      ensures ThreadInv(s.(ht := s.ht[pc.pos := pc.hash]), s.threads[u])
    {
      OthersKeep(s, s.threads[u], pc.pos, pc.hash);
    }
  }

  lemma CountKeepsInv(s: State, t: nat)
    requires Inv(s) && t < |s.threads| && s.threads[t].Count?
    ensures Inv(Goto(s, t, Done(s.threads[t].want, s.threads[t].pos)).(htSize := s.htSize + 1))
  {
    hide Passed, Distinct, Reachable;
    ThreadMoves(s.threads, t, Done(s.threads[t].want, s.threads[t].pos));
  }

  lemma StartPasses(s: State, want: nat, hash: nat, force: bool)
    requires |s.ht| > 0 && hash > 0 && if force then hash == s.unknown && MoreThanHalf(s) else hash == want
    ensures ThreadInv(s, Start(want, hash, force, |s.ht|))
  {
  }

  /** Where a step that leaves the table alone leads */
  lemma MovesAreSound(s: State, s': State, t: nat)
    requires Inv(s) && WellFormed(s) && t < |s.threads| && Step(s, s', t)
    requires var pc := s.threads[t]; !pc.Count? && !(pc.Probe? && pc.stage.Cas? && s.ht[pc.pos] == 0)
    ensures var pc' := s'.threads[t];
            && s' == Goto(s, t, pc') && ThreadInv(s, pc') && !pc'.Count?
            && (HasLicense(pc') ==> s.htSize <= |s.ht| / 2)
  {
    hide Passed, Distinct, Reachable, Inv;
    InvThread(s, t);
    var pc, pc' := s.threads[t], s'.threads[t];
    if pc.Probe? && pc.stage.Load? && s.ht[pc.pos] != 0 && s.ht[pc.pos] != pc.hash {
      AdvancePasses(s, pc);
    } else if pc'.Probe? && pc'.pos == pc'.hash % |s.ht| && !pc'.wasOverflow {
      StartPasses(s, pc'.want, pc'.hash, pc'.force);
    } else if pc.Probe? && pc.stage.AssertSize? && FewThreads(s) {
      NotFull(s);
    }
  }

  /** Every step of every thread keeps the invariant. */
  lemma StepKeepsInv(s: State, s': State, t: nat)
    requires Inv(s) && WellFormed(s) && t < |s.threads| && Step(s, s', t)
    ensures Inv(s') && WellFormed(s')
  {
    hide ThreadInv, Distinct, Reachable, Inv;
    var pc := s.threads[t];
    if pc.Probe? && pc.stage.Cas? && s.ht[pc.pos] == 0 {
      TakeKeepsInv(s, t);
    } else if pc.Count? {
      CountKeepsInv(s, t);
    } else {
      MovesAreSound(s, s', t);
      MoveKeepsInv(s, t, s'.threads[t]);
    }
    InvWellFormed(s');
  }

  lemma InvThread(s: State, t: nat)
    requires Inv(s) && t < |s.threads|
    ensures ThreadInv(s, s.threads[t]) && |s.ht| > 0 && s.unknown > 0
  {
  }

  lemma InvWellFormed(s: State)
    requires Inv(s)
    ensures WellFormed(s)
  {
  }

  // ---------- Safety of all runs

  lemma {:induction false} NothingTaken(ht: seq<nat>, unknown: nat)
    requires forall p :: 0 <= p < |ht| ==> ht[p] == 0
    ensures Taken(ht) == Known(ht, unknown) == 0
  {
    if ht != [] {
      NothingTaken(ht[1..], unknown);
    }
  }

  lemma {:induction false} NobodyBusy(threads: seq<Pc>)
    requires forall t :: 0 <= t < |threads| ==> threads[t] == Idle
    ensures Counting(threads) == Licensed(threads) == 0
  {
    if threads != [] {
      NobodyBusy(threads[1..]);
    }
  }

  lemma InitInv(s: State)
    requires Init(s)
    ensures Inv(s)
  {
    NothingTaken(s.ht, s.unknown);
    NobodyBusy(s.threads);
  }

  /** Sizes do not change, and a taken slot keeps its hash. */
  predicate Extends(s: State, s': State) {
    && |s'.ht| == |s.ht| && |s'.threads| == |s.threads| && s'.unknown == s.unknown
    && forall p :: 0 <= p < |s.ht| && s.ht[p] != 0 ==> s'.ht[p] == s.ht[p]
  }

  lemma StepExtends(s: State, s': State, t: nat)
    requires WellFormed(s) && t < |s.threads| && Step(s, s', t)
    ensures Extends(s, s')
  {
  }

  /** The hash that a call was made with */
  function Wanted(pc: Pc): nat {
    match pc
    case Idle => 0
    case Aborted => 0
    case Probe(_, want, _, _, _, _) => want
    case Count(want, _, _) => want
    case Done(want, _) => want
  }

  /** A call is about one hash from its start to its answer, and leaves the other calls alone. */
  lemma CallKeepsHash(s: State, s': State, t: nat)
    requires WellFormed(s) && t < |s.threads| && Step(s, s', t)
    ensures forall u :: 0 <= u < |s.threads| && u != t ==> s'.threads[u] == s.threads[u]
    ensures s.threads[t] != Idle && s'.threads[t] != Aborted && s'.threads[t] != Idle ==>
              Wanted(s'.threads[t]) == Wanted(s.threads[t])
  {
  }

  /** In every state of every run the invariant holds, and slots once taken stay. */
  lemma {:induction false} RunIsSafe(states: seq<State>)
    requires Run(states)
    ensures forall i :: 0 <= i < |states| ==> Inv(states[i]) && Extends(states[i], states[|states| - 1])
    decreases |states|
  {
    hide Inv, WellFormed, Init;
    var last := |states| - 1;
    if last == 0 {
      InitInv(states[0]);
      assert Extends(states[0], states[0]);
    } else {
      RunIsSafe(states[..last]);
      var s, s' := states[last - 1], states[last];
      assert s == states[..last][last - 1];
      var t: nat :| t < |s.threads| && Step(s, s', t);
      StepKeepsInv(s, s', t);
      StepExtends(s, s', t);
      forall i | 0 <= i < last
        ensures Inv(states[i]) && Extends(states[i], s')
      {
        assert states[i] == states[..last][i];
      }
    }
  }

  /** With few enough threads nobody aborts; with any number, a finished call has the slot of its own hash, or of the
      unknown one once more than half of the slots have been counted. */
  lemma ReachedSlots(states: seq<State>, t: nat)
    requires Run(states) && t < |states[|states| - 1].threads|
    ensures var s := states[|states| - 1];
            var pc := s.threads[t];
            && (pc == Aborted ==> !FewThreads(s))
            && (pc.Done? ==>
                  && pc.pos < |s.ht|
                  && (s.ht[pc.pos] == pc.want || (s.ht[pc.pos] == s.unknown && s.htSize > |s.ht| / 2)))
  {
    RunIsSafe(states);
    InvThread(states[|states| - 1], t);
  }

  /** Calls that were given the slot of the same hash, at any two times, were given the same slot. */
  lemma OneSlotPerHash(states: seq<State>, i: nat, t: nat, u: nat)
    requires Run(states) && i < |states|
    requires var s, s' := states[i], states[|states| - 1];
             t < |s.threads| && s.threads[t].Done? && u < |s'.threads| && s'.threads[u].Done?
    ensures var s, s' := states[i], states[|states| - 1];
            var p, q := s.threads[t].pos, s'.threads[u].pos;
            p < |s.ht| && q < |s'.ht| && (s.ht[p] == s'.ht[q] ==> p == q)
  {
    RunIsSafe(states);
    InvThread(states[i], t);
    InvThread(states[|states| - 1], u);
  }

  // ---------- Every call ends after a bounded number of its own steps

  /** Slots to look at before the second wrap */
  function SlotsLeft(pos: nat, wasOverflow: bool, size: nat): int {
    if wasOverflow then size - pos else size + size - pos
  }

  function Rank(s: State, pc: Pc): int
    requires pc.Probe? ==> pc.pos < |s.ht|
  {
    match pc
    case Idle => 0
    case Aborted => 0
    case Done(_, _) => 0
    case Count(_, _, _) => 1
    case Probe(stage, _, _, force, pos, wasOverflow) =>
      var offset := match stage
                    case Load => if s.ht[pos] == 0 then 5 else 1
                    case ReadSize => 4
                    case AssertSize => 3
                    case Cas => 2;
      (if force then 0 else 12 * |s.ht| + 6) + 6 * SlotsLeft(pos, wasOverflow, |s.ht|) + offset
  }

  lemma RankIsBounded(s: State, t: nat)
    requires Inv(s) && t < |s.threads|
    ensures 0 <= Rank(s, s.threads[t]) <= 24 * |s.ht| + 11
  {
  }

  /** The caller's own steps bring its call closer to the end. */
  lemma OwnStepAdvances(s: State, s': State, t: nat)
    requires Inv(s) && WellFormed(s) && t < |s.threads| && Step(s, s', t)
    requires s.threads[t].Probe? || s.threads[t].Count?
    ensures WellFormed(s') && t < |s'.threads|
    ensures 0 <= Rank(s', s'.threads[t]) < Rank(s, s.threads[t]) <= 24 * |s.ht| + 11
  {
    hide ThreadInv, Distinct, Reachable, Inv;
    StepKeepsInv(s, s', t);
    RankIsBounded(s, t);
    RankIsBounded(s', t);
    var pc := s.threads[t];
    if pc.Probe? && pc.stage.Load? && s.ht[pc.pos] != 0 && s.ht[pc.pos] != pc.hash {
      AdvanceLowersRank(s, pc);
    }
  }

  lemma AdvanceLowersRank(s: State, pc: Pc)
    requires pc.Probe? && pc.stage.Load? && pc.pos < |s.ht| && s.ht[pc.pos] != 0
    ensures Rank(s, Advance(pc, |s.ht|)) < Rank(s, pc)
  {
  }

  /** The steps of other threads never take a call back. */
  lemma OtherStepsKeepRank(s: State, s': State, t: nat, u: nat)
    requires WellFormed(s) && t < |s.threads| && u < |s.threads| && u != t && Step(s, s', t)
    ensures |s'.ht| == |s.ht| && s'.threads[u] == s.threads[u]
    ensures Rank(s', s'.threads[u]) <= Rank(s, s.threads[u])
  {
    StepExtends(s, s', t);
  }

  /** A call never has to wait for other threads. */
  lemma CallsNeverWait(s: State, t: nat) returns (s': State)
    requires Inv(s) && WellFormed(s) && t < |s.threads| && s.threads[t] != Aborted
    ensures Step(s, s', t)
  {
    var pc := s.threads[t];
    s' := match pc
          case Idle => Goto(s, t, Start(1, 1, false, |s.ht|))
          case Done(_, _) => Goto(s, t, Idle)
          case Count(want, _, pos) => Goto(s, t, Done(want, pos)).(htSize := s.htSize + 1)
          case Probe(Load, want, hash, _, pos, _) =>
            Goto(s, t, if s.ht[pos] == 0 then pc.(stage := ReadSize)
                       else if s.ht[pos] == hash then Done(want, pos) else Advance(pc, |s.ht|))
          case Probe(ReadSize, want, _, force, _, _) =>
            Goto(s, t, if s.htSize <= |s.ht| / 2 then pc.(stage := Cas)
                       else if force then pc.(stage := AssertSize) else Start(want, s.unknown, true, |s.ht|))
          case Probe(AssertSize, _, _, _, _, _) =>
            Goto(s, t, if s.htSize * 10 < |s.ht| * 7 then pc.(stage := Cas) else Aborted)
          case Probe(Cas, want, hash, _, pos, _) =>
            if s.ht[pos] == 0 then Goto(s, t, Count(want, hash, pos)).(ht := s.ht[pos := hash])
            else Goto(s, t, pc.(stage := Load))
          case Aborted => s;
  }

  // ---------- When an abort is reachable

  /** Hashes that differ from one another and from the unknown one, with home p; the last one has home 0 again. */
  function HashFor(p: nat, size: nat, unknown: nat): nat {
    if size + p == unknown then 3 * size + p else size + p
  }

  lemma HomeOf(p: nat, size: nat, unknown: nat)
    requires p <= size && size > 0
    ensures HashFor(p, size, unknown) % size == if p < size then p else 0
    ensures HashFor(p, size, unknown) > 0 && HashFor(p, size, unknown) != unknown
  {
    var home := if p < size then p else 0;
    Itself(home, size);
    Around(home, size);
    Around(home + size, size);
    Around(home + 2 * size, size);
    Around(home + 3 * size, size);
    FourRounds(p, size, home);
  }

  lemma Itself(x: nat, size: nat)
    requires x < size
    ensures x % size == x
  {
  }

  lemma FourRounds(p: nat, size: nat, home: nat)
    requires 0 < size && (p == home || p == home + size)
    requires (home + size) % size == (home + size + size) % size == home
    requires (home + 2 * size + size) % size == (home + 3 * size + size) % size == home
    ensures (size + p) % size == home && (3 * size + p) % size == home
  {
    assert home + 2 * size + size == 3 * size + home && home + 3 * size + size == 4 * size + home;
  }

  lemma Around(x: nat, size: nat)
    requires size > 0
    ensures (x + size) % size == x % size
  {
    var q, r, q' := x / size, x % size, (x + size) / size;
    assert x + size == (q + 1) * size + r && x + size == q' * size + (x + size) % size;
    if q + 1 < q' {
      Further(q + 2, q', size);
      assert false;
    }
    if q' < q + 1 {
      Further(q' + 1, q + 1, size);
      assert false;
    }
  }

  lemma Further(a: nat, b: nat, size: nat)
    requires a <= b
    ensures a * size <= b * size
  {
  }

  /** The first n slots are taken. */
  function Table(n: nat, size: nat, unknown: nat): (ht: seq<nat>)
    ensures |ht| == size
  {
    seq(size, p => if 0 <= p < n then HashFor(p, size, unknown) else 0)
  }

  /** Table and counter after n complete calls, and nobody at work */
  function Quiet(s: State, n: nat): State {
    s.(ht := Table(n, |s.ht|, s.unknown), htSize := n, threads := seq(|s.threads|, _ => Idle))
  }

  lemma OneMore(states: seq<State>, t: nat, s': State) returns (longer: seq<State>)
    requires states != [] && Run(states) && WellFormed(states[|states| - 1]) && t < |states[|states| - 1].threads|
    requires Step(states[|states| - 1], s', t)
    ensures longer == states + [s'] && Run(longer)
  {
    hide Step, WellFormed;
    longer := states + [s'];
    assert longer[..|states|] == states;
  }

  /** A thread starts a call, finds slot n free and the table at most half full, and takes the slot. */
  lemma ThreadTakes(states: seq<State>, s: State, n: nat, t: nat) returns (longer: seq<State>)
    requires states != [] && Run(states) && states[|states| - 1] == s && WellFormed(s)
    requires t < |s.threads| && s.threads[t] == Idle && n < |s.ht| && s.ht == Table(n, |s.ht|, s.unknown)
    requires s.htSize <= |s.ht| / 2
    ensures longer != [] && Run(longer) && states <= longer
    ensures var s', h := longer[|longer| - 1], HashFor(n, |s.ht|, s.unknown);
            WellFormed(s') && s' == Goto(s, t, Count(h, h, n)).(ht := Table(n + 1, |s.ht|, s.unknown))
  {
    hide Run;
    var size, h := |s.ht|, HashFor(n, |s.ht|, s.unknown);
    HomeOf(n, size, s.unknown);
    hide HashFor;
    var pc := Start(h, h, false, size);
    var s1, s2, s3 := Goto(s, t, pc), Goto(s, t, pc.(stage := ReadSize)), Goto(s, t, pc.(stage := Cas));
    longer := OneMore(states, t, s1);
    assert s2 == Goto(s1, t, pc.(stage := ReadSize));
    longer := OneMore(longer, t, s2);
    assert s3 == Goto(s2, t, pc.(stage := Cas));
    longer := OneMore(longer, t, s3);
    var s4 := Goto(s, t, Count(h, h, n)).(ht := Table(n + 1, size, s.unknown));
    assert s4 == Goto(s3, t, Count(h, h, n)).(ht := s3.ht[n := h]);
    longer := OneMore(longer, t, s4);
  }

  /** It counts the slot and returns. */
  lemma ThreadCounts(states: seq<State>, s: State, t: nat) returns (longer: seq<State>)
    requires states != [] && Run(states) && states[|states| - 1] == s && WellFormed(s)
    requires t < |s.threads| && s.threads[t].Count?
    ensures longer != [] && Run(longer) && states <= longer
    ensures var s' := longer[|longer| - 1];
            WellFormed(s') && s' == Goto(s, t, Idle).(htSize := s.htSize + 1)
  {
    hide Run;
    var pc := s.threads[t];
    var s1, s2 := Goto(s, t, Done(pc.want, pc.pos)).(htSize := s.htSize + 1), Goto(s, t, Idle).(htSize := s.htSize + 1);
    longer := OneMore(states, t, s1);
    assert s2 == Goto(s1, t, Idle);
    longer := OneMore(longer, t, s2);
  }

  lemma OnlyState(s: State) returns (states: seq<State>)
    requires Init(s)
    ensures states == [s] && Run(states)
  {
    return [s];
  }

  /** One call after the other, up to half of the slots */
  lemma {:induction false} Sequentially(s: State, n: nat) returns (states: seq<State>)
    requires Init(s) && |s.threads| > 0 && n <= |s.ht| / 2
    ensures states != [] && Run(states) && states[0] == s && states[|states| - 1] == Quiet(s, n)
  {
    hide Run, Step;
    if n == 0 {
      assert s.ht == Table(0, |s.ht|, s.unknown) && s.threads == Quiet(s, 0).threads;
      states := OnlyState(s);
      return;
    }
    states := Sequentially(s, n - 1);
    var before := Quiet(s, n - 1);
    states := ThreadTakes(states, before, n - 1, 0);
    states := ThreadCounts(states, states[|states| - 1], 0);
    assert states[|states| - 1] == Quiet(s, n);
  }

  /** The state when the first k threads have each taken a slot behind the first `half` and not counted it */
  function Racing(s: State, half: nat, k: nat): State
    requires half <= |s.ht|
  {
    var size := |s.ht|;
    s.(ht := Table(half + k, size, s.unknown), htSize := half,
       threads := seq(|s.threads|, t requires 0 <= t =>
                        var h := HashFor(half + t, size, s.unknown); if t < k then Count(h, h, half + t) else Idle))
  }

  lemma RacingIsWellFormed(s: State, half: nat, k: nat, m: nat)
    requires s.unknown > 0 && |s.ht| > 0 && m <= k <= |s.threads| && half + k <= |s.ht|
    ensures WellFormed(Racing(s, half, k)) && WellFormed(Counted(s, half, k, m))
  {
    forall p: nat | p < |s.ht|
      ensures HashFor(p, |s.ht|, s.unknown) > 0
    {
      HomeOf(p, |s.ht|, s.unknown);
    }
    hide HashFor, Table;
  }

  lemma {:induction false} AllRace(states: seq<State>, s: State, half: nat, k: nat) returns (longer: seq<State>)
    requires states != [] && Run(states) && s.unknown > 0 && states[|states| - 1] == Quiet(s, half)
    requires half == |s.ht| / 2 && k <= |s.threads| && half + k <= |s.ht| && |s.ht| > 0
    ensures longer != [] && Run(longer) && states <= longer && longer[|longer| - 1] == Racing(s, half, k)
  {
    hide Run, Step, HashFor;
    if k == 0 {
      assert Quiet(s, half) == Racing(s, half, 0);
      return states;
    }
    longer := AllRace(states, s, half, k - 1);
    RacingIsWellFormed(s, half, k - 1, 0);
    var before := Racing(s, half, k - 1);
    longer := ThreadTakes(longer, before, half + k - 1, k - 1);
    assert longer[|longer| - 1] == Racing(s, half, k);
  }

  /** The first m of the k threads have counted their slots. */
  function Counted(s: State, half: nat, k: nat, m: nat): State
    requires half <= |s.ht| && m <= k <= |s.threads|
  {
    var racing := Racing(s, half, k);
    racing.(htSize := half + m,
            threads := seq(|s.threads|, t requires 0 <= t < |s.threads| => if t < m then Idle else racing.threads[t]))
  }

  lemma {:induction false} AllCount(states: seq<State>, s: State, half: nat, k: nat, m: nat)
    returns (longer: seq<State>)
    requires states != [] && Run(states) && s.unknown > 0 && |s.ht| > 0
    requires half == |s.ht| / 2 && m <= k <= |s.threads| && half + k <= |s.ht|
    requires states[|states| - 1] == Racing(s, half, k)
    ensures longer != [] && Run(longer) && states <= longer && longer[|longer| - 1] == Counted(s, half, k, m)
  {
    hide Run, Step, HashFor;
    if m == 0 {
      assert Racing(s, half, k) == Counted(s, half, k, 0);
      return states;
    }
    longer := AllCount(states, s, half, k, m - 1);
    RacingIsWellFormed(s, half, k, m - 1);
    longer := ThreadCounts(longer, Counted(s, half, k, m - 1), m - 1);
    assert longer[|longer| - 1] == Counted(s, half, k, m);
  }

  /** With k threads, half of the slots and k more can be taken and counted by hashes other than the unknown one. */
  lemma FillsUpTo(s: State, k: nat) returns (states: seq<State>)
    requires Init(s) && 0 < k <= |s.threads| && |s.ht| / 2 + k <= |s.ht|
    ensures states != [] && Run(states) && states[0] == s && states[|states| - 1] == Quiet(s, |s.ht| / 2 + k)
  {
    hide Run, HashFor;
    var half := |s.ht| / 2;
    states := Sequentially(s, half);
    states := AllRace(states, s, half, k);
    states := AllCount(states, s, half, k, k);
    assert Counted(s, half, k, k) == Quiet(s, half + k);
  }

  /** In the full table thread t goes on to the next slot, and after the second wrap aborts. */
  lemma {:induction false} ProbesInVain(states: seq<State>, s: State, t: nat) returns (longer: seq<State>)
    requires states != [] && Run(states) && states[|states| - 1] == s && WellFormed(s)
    requires t < |s.threads| && s.threads[t].Probe? && s.threads[t].stage == Load
    requires forall p :: 0 <= p < |s.ht| ==> s.ht[p] != 0 && s.ht[p] != s.threads[t].hash
    ensures longer != [] && Run(longer) && states <= longer && Aborted in longer[|longer| - 1].threads
    decreases SlotsLeft(s.threads[t].pos, s.threads[t].wasOverflow, |s.ht|)
  {
    hide Run;
    var next := Goto(s, t, Advance(s.threads[t], |s.ht|));
    longer := OneMore(states, t, next);
    if next.threads[t] == Aborted {
      assert Aborted in next.threads;
    } else {
      longer := ProbesInVain(longer, next, t);
    }
  }

  /** Looking for the unknown hash, a thread passes the taken slots at the start of the table and comes to a free
      one. */
  lemma {:induction false} ProbesToFree(states: seq<State>, s: State, n: nat, t: nat) returns (longer: seq<State>)
    requires states != [] && Run(states) && states[|states| - 1] == s && WellFormed(s)
    requires t < |s.threads| && n < |s.ht|
    requires forall p :: 0 <= p < |s.ht| ==> (s.ht[p] == 0 <==> p >= n) && s.ht[p] != s.unknown
    requires s.threads[t].Probe? && s.threads[t].stage == Load && s.threads[t].hash == s.unknown
    ensures longer != [] && Run(longer) && states <= longer
    ensures var pos := s.threads[t].pos;
            longer[|longer| - 1] == Goto(s, t, s.threads[t].(stage := Load, pos := if pos < n then n else pos))
    decreases n - s.threads[t].pos
  {
    hide Run;
    var pc := s.threads[t];
    if pc.pos >= n {
      assert s == Goto(s, t, pc);
      return states;
    }
    var next := Goto(s, t, Advance(pc, |s.ht|));
    longer := OneMore(states, t, next);
    longer := ProbesToFree(longer, next, n, t);
    assert Goto(next, t, pc.(stage := Load, pos := n)) == Goto(s, t, pc.(stage := Load, pos := n));
  }

  /** The call of a thread that finds more than half of the slots counted, up to the assertion on the load */
  function Asserting(n: nat, size: nat, unknown: nat): Pc
    requires size > 0
  {
    var home := unknown % size;
    Probe(AssertSize, HashFor(n, size, unknown), unknown, true, if home < n then n else home, false)
  }

  lemma TableIsPrefix(n: nat, size: nat, unknown: nat)
    requires n <= size && size > 0
    ensures var ht := Table(n, size, unknown);
            forall p :: 0 <= p < size ==> (ht[p] == 0 <==> p >= n) && (unknown > 0 ==> ht[p] != unknown)
    ensures forall p :: 0 <= p < size ==> Table(n, size, unknown)[p] != HashFor(n, size, unknown)
  {
    forall p | 0 <= p < n
      ensures HashFor(p, size, unknown) > 0 && HashFor(p, size, unknown) != unknown
      ensures HashFor(p, size, unknown) != HashFor(n, size, unknown)
    {
      HomeOf(p, size, unknown);
    }
    HomeOf(n, size, unknown);
    hide HashFor;
  }

  lemma GoesToAssertion(states: seq<State>, s: State, n: nat, t: nat) returns (longer: seq<State>)
    requires states != [] && Run(states) && states[|states| - 1] == s && WellFormed(s)
    requires t < |s.threads| && s.threads[t] == Idle && n < |s.ht| && s.ht == Table(n, |s.ht|, s.unknown)
    requires s.htSize > |s.ht| / 2
    ensures longer != [] && Run(longer) && states <= longer
    ensures longer[|longer| - 1] == Goto(s, t, Asserting(n, |s.ht|, s.unknown)) && WellFormed(longer[|longer| - 1])
  {
    hide Run;
    var size, h := |s.ht|, HashFor(n, |s.ht|, s.unknown);
    HomeOf(n, size, s.unknown);
    TableIsPrefix(n, size, s.unknown);
    hide HashFor, Table;
    var pc, forced := Start(h, h, false, size), Start(h, s.unknown, true, size);
    var s1, s2, s3 := Goto(s, t, pc), Goto(s, t, pc.(stage := ReadSize)), Goto(s, t, forced);
    longer := OneMore(states, t, s1);
    assert s2 == Goto(s1, t, pc.(stage := ReadSize));
    longer := OneMore(longer, t, s2);
    assert s3 == Goto(s2, t, forced);
    longer := OneMore(longer, t, s3);
    longer := ForcedToAssertion(longer, s3, n, t);
    assert Goto(s3, t, Asserting(n, size, s.unknown)) == Goto(s, t, Asserting(n, size, s.unknown));
  }

  /** The second half of it, from the start of the search for the unknown hash on */
  lemma ForcedToAssertion(states: seq<State>, s: State, n: nat, t: nat) returns (longer: seq<State>)
    requires states != [] && Run(states) && states[|states| - 1] == s && WellFormed(s)
    requires t < |s.threads| && n < |s.ht| && s.ht == Table(n, |s.ht|, s.unknown) && s.htSize > |s.ht| / 2
    requires s.threads[t] == Start(HashFor(n, |s.ht|, s.unknown), s.unknown, true, |s.ht|)
    ensures longer != [] && Run(longer) && states <= longer
    ensures longer[|longer| - 1] == Goto(s, t, Asserting(n, |s.ht|, s.unknown)) && WellFormed(longer[|longer| - 1])
  {
    hide Run;
    TableIsPrefix(n, |s.ht|, s.unknown);
    hide HashFor, Table;
    var pc := s.threads[t];
    longer := ProbesToFree(states, s, n, t);
    var at := pc.(stage := Load, pos := if pc.pos < n then n else pc.pos);
    var s1, s2 := Goto(s, t, at), Goto(s, t, at.(stage := ReadSize));
    assert s2 == Goto(s1, t, at.(stage := ReadSize));
    longer := OneMore(longer, t, s2);
    var s3 := Goto(s, t, at.(stage := AssertSize));
    assert s3 == Goto(s2, t, at.(stage := AssertSize));
    longer := OneMore(longer, t, s3);
  }

  lemma AssertionFails(states: seq<State>, s: State, t: nat) returns (longer: seq<State>)
    requires states != [] && Run(states) && states[|states| - 1] == s && WellFormed(s)
    requires t < |s.threads| && s.threads[t].Probe? && s.threads[t].stage == AssertSize && 10 * s.htSize >= 7 * |s.ht|
    ensures longer != [] && Run(longer) && states <= longer && Aborted in longer[|longer| - 1].threads
  {
    hide Run;
    var s' := Goto(s, t, Aborted);
    longer := OneMore(states, t, s');
    assert s'.threads[t] == Aborted;
  }

  /** Another thread passes the assertion before, takes a slot for the unknown hash and counts it. */
  lemma OtherTakesUnknown(states: seq<State>, s: State, t: nat) returns (longer: seq<State>)
    requires states != [] && Run(states) && states[|states| - 1] == s && WellFormed(s)
    requires t < |s.threads| && s.threads[t].Probe? && s.threads[t].stage == AssertSize && 10 * s.htSize < 7 * |s.ht|
    requires s.ht[s.threads[t].pos] == 0
    ensures longer != [] && Run(longer) && states <= longer
    ensures var s', pc := longer[|longer| - 1], s.threads[t];
            WellFormed(s') && s' == Goto(s, t, Idle).(ht := s.ht[pc.pos := pc.hash], htSize := s.htSize + 1)
  {
    hide Run;
    var pc := s.threads[t];
    var s1, ht := Goto(s, t, pc.(stage := Cas)), s.ht[pc.pos := pc.hash];
    longer := OneMore(states, t, s1);
    var s2 := Goto(s, t, Count(pc.want, pc.hash, pc.pos)).(ht := ht);
    assert s2 == Goto(s1, t, Count(pc.want, pc.hash, pc.pos)).(ht := ht);
    longer := OneMore(longer, t, s2);
    longer := ThreadCounts(longer, s2, t);
    assert Goto(s2, t, Idle) == Goto(s, t, Idle).(ht := ht);
  }

  /** A full table: the abort that is meant to be unreachable */
  lemma AbortsWhenFull(states: seq<State>, s: State) returns (longer: seq<State>)
    requires states != [] && Run(states) && states[|states| - 1] == Quiet(s, |s.ht|)
    requires |s.ht| > 0 && s.unknown > 0 && |s.threads| > 0
    ensures longer != [] && Run(longer) && states <= longer && Aborted in longer[|longer| - 1].threads
  {
    hide Run;
    var size, full := |s.ht|, Quiet(s, |s.ht|);
    var h := HashFor(size, size, s.unknown);
    HomeOf(size, size, s.unknown);
    TableIsPrefix(size, size, s.unknown);
    hide HashFor, Table;
    var started := Goto(full, 0, Start(h, h, false, size));
    longer := OneMore(states, 0, started);
    longer := ProbesInVain(longer, started, 0);
  }

  /** The assertion on the load fails. */
  lemma AbortsOnLoad(states: seq<State>, s: State, n: nat) returns (longer: seq<State>)
    requires states != [] && Run(states) && states[|states| - 1] == Quiet(s, n)
    requires |s.ht| / 2 < n < |s.ht| && s.unknown > 0 && |s.threads| > 1 && 10 * (n + 1) >= 7 * |s.ht|
    ensures longer != [] && Run(longer) && states <= longer && Aborted in longer[|longer| - 1].threads
  {
    hide Run;
    var quiet := Quiet(s, n);
    QuietIsReady(s, n);
    assert quiet.ht == Table(n, |s.ht|, s.unknown);
    hide Quiet, Table, WellFormed;
    longer := LoadFails(states, quiet, n);
  }

  lemma QuietIsReady(s: State, n: nat)
    requires n < |s.ht| && s.unknown > 0 && |s.threads| > 1
    ensures var quiet, pc := Quiet(s, n), Asserting(n, |s.ht|, s.unknown);
            && WellFormed(quiet) && quiet.threads[0] == quiet.threads[1] == Idle
            && pc.pos < |s.ht| && quiet.ht[pc.pos] == 0
  {
    TableIsPrefix(n, |s.ht|, s.unknown);
    hide HashFor, Table;
  }

  lemma LoadFails(states: seq<State>, s: State, n: nat) returns (longer: seq<State>)
    requires states != [] && Run(states) && states[|states| - 1] == s && WellFormed(s)
    requires |s.threads| > 1 && s.threads[0] == s.threads[1] == Idle
    requires |s.ht| / 2 < n == s.htSize < |s.ht| && s.ht == Table(n, |s.ht|, s.unknown)
    requires var pc := Asserting(n, |s.ht|, s.unknown); pc.pos < |s.ht| && s.ht[pc.pos] == 0
    requires 10 * (n + 1) >= 7 * |s.ht|
    ensures longer != [] && Run(longer) && states <= longer && Aborted in longer[|longer| - 1].threads
  {
    hide Run, WellFormed, HashFor, Table;
    var pc, size := Asserting(n, |s.ht|, s.unknown), |s.ht|;
    assert pc.stage == AssertSize;
    hide Asserting;
    longer := GoesToAssertion(states, s, n, 0);
    if 10 * n < 7 * size {
      longer := GoesToAssertion(longer, Goto(s, 0, pc), n, 1);
      longer := OtherTakesUnknown(longer, Goto(Goto(s, 0, pc), 1, pc), 1);
    }
    longer := AssertionFails(longer, longer[|longer| - 1], 0);
  }

  /** From any start with at least two threads, some run reaches an abort if and only if the threads are not few. */
  lemma AbortIsReachable(s: State)
    requires Init(s) && |s.threads| > 1
    ensures !FewThreads(s)
            <==> exists states: seq<State> ::
                   Run(states) && states[0] == s && Aborted in states[|states| - 1].threads
  {
    if !FewThreads(s) {
      var states := SomeRunAborts(s);
    } else {
      forall states: seq<State> | Run(states) && states[0] == s
        ensures Aborted !in states[|states| - 1].threads
      {
        NobodyAborts(states);
      }
    }
  }

  lemma NobodyAborts(states: seq<State>)
    requires Run(states) && FewThreads(states[0])
    ensures Aborted !in states[|states| - 1].threads
  {
    RunIsSafe(states);
    var s := states[|states| - 1];
    assert Extends(states[0], s) && FewThreads(s);
    forall t: nat | t < |s.threads|
      ensures s.threads[t] != Aborted
    {
      ReachedSlots(states, t);
    }
  }

  lemma SomeRunAborts(s: State) returns (states: seq<State>)
    requires Init(s) && |s.threads| > 1 && !FewThreads(s)
    ensures states != [] && Run(states) && states[0] == s && Aborted in states[|states| - 1].threads
  {
    hide Run;
    var size, half, k := |s.ht|, |s.ht| / 2, |s.threads|;
    if half + k >= size {
      states := FillsUpTo(s, size - half);
      states := AbortsWhenFull(states, s);
    } else {
      states := FillsUpTo(s, k);
      states := AbortsOnLoad(states, s, half + k);
    }
  }
}
