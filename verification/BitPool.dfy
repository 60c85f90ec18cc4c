/** The lock-free slot pool: a Treiber free list under a tagged head word, as atomic steps of any threads. */
module BitPool {

  // --- The packed word: 16 bits of tag above 48 bits of address ---

  const TAGS: nat := 0x1_0000
  const ADDRESSES: nat := 0x1_0000_0000_0000

  function TagOf(word: nat): (tag: nat)
    ensures tag < TAGS
  {
    word / ADDRESSES % TAGS
  }

  function PtrOf(word: nat): (ptr: nat)
    ensures ptr < ADDRESSES
  {
    word % ADDRESSES
  }

  /** Tag and address survive packing, each cut to its width. */
  function Pack(tag: nat, ptr: nat): (word: nat)
    ensures TagOf(word) == tag % TAGS && PtrOf(word) == ptr % ADDRESSES
    ensures word < TAGS * ADDRESSES
  {
    tag % TAGS * ADDRESSES + ptr % ADDRESSES
  }

  lemma PackSurjective(word: nat)
    requires word < TAGS * ADDRESSES
    ensures Pack(TagOf(word), PtrOf(word)) == word
  {
  }

  // --- The pool and its threads ---

  type Tid = nat
  type Addr = nat

  /** The arena: the header addresses of its slots in order, and the payload size. */
  datatype Pool = Pool(slots: seq<Addr>, elementSize: nat)

  function Elements(xs: seq<Addr>): set<Addr> {
    set a | a in xs
  }

  function Arena(pool: Pool): set<Addr> {
    Elements(pool.slots)
  }

  predicate ValidPool(pool: Pool) {
    && (forall i :: 0 <= i < |pool.slots| ==> 0 < pool.slots[i] < ADDRESSES)
    && NoRepeats(pool.slots)
  }

  /** Where a thread stands. `expected` is the head word it last loaded and `since` the number
      of successful head exchanges at that moment (bookkeeping, not program state). */
  datatype PC =
    | Idle
    | AllocLoop(id: nat, expected: nat, since: nat)
    | AllocReady(id: nat, expected: nat, nextWord: nat, since: nat)
    | AllocWon(id: nat, slot: Addr)
    | AllocTyped(id: nat, slot: Addr)
    | FreeEntered(slot: Addr)
    | FreeScanning(slot: Addr)
    | FreeChecked(slot: Addr)
    | FreeCleared(slot: Addr)
    | FreeLoop(slot: Addr, expected: nat, since: nat)
    | FreeReady(slot: Addr, expected: nat, since: nat)

  datatype State = State(
    head: nat,
    next: map<Addr, nat>, typeId: map<Addr, nat>, length: map<Addr, nat>,
    pc: map<Tid, PC>, held: map<Tid, set<Addr>>,
    swaps: nat)

  /** One atomic step. A weak exchange may fail spuriously. */
  datatype Step =
    | CallAlloc(id: nat)
    | LoadNext
    | SwapForAlloc(spurious: bool)
    | StampType
    | StampLength
    | CallFree(slot: Addr)
    | ReadType
    | ClearType
    | LoadHead
    | Link
    | SwapForFree(spurious: bool)

  /** What the program counter and the client's discipline allow: free only what is held,
      allocate with non-zero type ids. */
  predicate Enabled(s: State, t: Tid, step: Step) {
    t in s.pc && t in s.held &&
    match step
    case CallAlloc(id) => s.pc[t].Idle? && id != 0
    case LoadNext => s.pc[t].AllocLoop?
    case SwapForAlloc(_) => s.pc[t].AllocReady?
    case StampType => s.pc[t].AllocWon?
    case StampLength => s.pc[t].AllocTyped?
    case CallFree(slot) => s.pc[t].Idle? && slot in s.held[t]
    case ReadType => s.pc[t].FreeEntered?
    case ClearType => s.pc[t].FreeChecked?
    case LoadHead => s.pc[t].FreeCleared?
    case Link => s.pc[t].FreeLoop?
    case SwapForFree(_) => s.pc[t].FreeReady?
  }

  function Read(memory: map<Addr, nat>, a: Addr): nat {
    if a in memory then memory[a] else 0
  }

  /** A successful head exchange: new address, next tag. */
  function Swapped(s: State, t: Tid, ptr: Addr, pc: PC): State
    requires t in s.pc && (s.pc[t].AllocReady? || s.pc[t].FreeReady?)
  {
    s.(head := Pack(TagOf(s.pc[t].expected) + 1, ptr), swaps := s.swaps + 1, pc := s.pc[t := pc])
  }

  /** The slot being freed pointed at the head its thread loaded. */
  function Linked(s: State, t: Tid): State
    requires t in s.pc && s.pc[t].FreeLoop?
  {
    var pc := s.pc[t];
    s.(next := s.next[pc.slot := Pack(TagOf(pc.expected) + 1, PtrOf(pc.expected))],
       pc := s.pc[t := FreeReady(pc.slot, pc.expected, pc.since)])
  }

  function Do(pool: Pool, s: State, t: Tid, step: Step): State
    requires Enabled(s, t, step)
  {
    var pc := s.pc[t];
    match step
    case CallAlloc(id) =>
      s.(pc := s.pc[t := AllocLoop(id, s.head, s.swaps)])
    case LoadNext =>
      if PtrOf(pc.expected) == 0 then s.(pc := s.pc[t := Idle])
      else s.(pc := s.pc[t := AllocReady(pc.id, pc.expected, Read(s.next, PtrOf(pc.expected)), pc.since)])
    case SwapForAlloc(spurious) =>
      if s.head == pc.expected && !spurious then
        Swapped(s, t, PtrOf(pc.nextWord), AllocWon(pc.id, PtrOf(pc.expected)))
      else s.(pc := s.pc[t := AllocLoop(pc.id, s.head, s.swaps)])
    case StampType =>
      s.(typeId := s.typeId[pc.slot := pc.id], pc := s.pc[t := AllocTyped(pc.id, pc.slot)])
    case StampLength =>
      s.(length := s.length[pc.slot := pool.elementSize], pc := s.pc[t := Idle],
         held := s.held[t := s.held[t] + {pc.slot}])
    case CallFree(slot) =>
      s.(pc := s.pc[t := FreeEntered(slot)], held := s.held[t := s.held[t] - {slot}])
    case ReadType =>
      s.(pc := s.pc[t := if Read(s.typeId, pc.slot) == 0 then FreeScanning(pc.slot) else FreeChecked(pc.slot)])
    case ClearType =>
      s.(typeId := s.typeId[pc.slot := 0], pc := s.pc[t := FreeCleared(pc.slot)])
    case LoadHead =>
      s.(pc := s.pc[t := FreeLoop(pc.slot, s.head, s.swaps)])
    case Link =>
      Linked(s, t)
    case SwapForFree(spurious) =>
      if s.head == pc.expected && !spurious then
        Swapped(s, t, pc.slot, Idle)
      else s.(pc := s.pc[t := FreeLoop(pc.slot, s.head, s.swaps)])
  }

  /** If this step is the exchange that wins a slot, it comes fewer than 2^16 successful exchanges after the
      thread loaded the head it compares with. Exchanges that fail and those that free are under no limit. */
  predicate InWindow(s: State, t: Tid, step: Step)
    requires Enabled(s, t, step)
  {
    match step
    case SwapForAlloc(spurious) => s.head == s.pc[t].expected && !spurious ==> s.swaps - s.pc[t].since < TAGS
    case _ => true
  }

  /** If this step is the exchange that wins a slot, the link its thread read behind the head is still the
      link there: the list it installs is the list behind the slot it takes. */
  predicate LinkHolds(s: State, t: Tid, step: Step)
    requires Enabled(s, t, step)
  {
    step.SwapForAlloc? && !step.spurious && s.head == s.pc[t].expected ==>
      PtrOf(s.head) in s.next && PtrOf(s.pc[t].nextWord) == PtrOf(s.next[PtrOf(s.head)])
  }

  // --- Invariant ---

  /** The slot a thread has taken off the list, or is putting back, but does not hold as client. */
  function InFlight(pc: PC): set<Addr> {
    match pc
    case Idle => {}
    case AllocLoop(_, _, _) => {}
    case AllocReady(_, _, _, _) => {}
    case _ => {pc.slot}
  }

  function Owned(s: State, t: Tid): set<Addr>
    requires t in s.pc && t in s.held
  {
    s.held[t] + InFlight(s.pc[t])
  }

  ghost predicate Domains(pool: Pool, s: State) {
    && s.pc.Keys == s.held.Keys
    && s.next.Keys == Arena(pool) && s.typeId.Keys == Arena(pool)
  }

  /** The entry behind position `i`, null at the end. */
  function After(chain: seq<Addr>, i: nat): Addr {
    if i + 1 < |chain| then chain[i + 1] else 0
  }

  /** Following `next` from the address `first` spells exactly `chain` and ends in null. */
  ghost predicate FreeList(next: map<Addr, nat>, first: Addr, chain: seq<Addr>) {
    && first == (if chain == [] then 0 else chain[0])
    && (forall i :: 0 <= i < |chain| ==> chain[i] in next && PtrOf(next[chain[i]]) == After(chain, i))
  }

  predicate NoRepeats(chain: seq<Addr>) {
    forall i, j :: 0 <= i < j < |chain| ==> chain[i] != chain[j]
  }

  /** Who owns what, whether as client or in flight. */
  function Owners(s: State): map<Tid, set<Addr>>
    requires s.pc.Keys == s.held.Keys
  {
    map t | t in s.pc :: Owned(s, t)
  }

  /** Every slot has exactly one home: the free list or one owner. */
  ghost predicate Partition(slots: set<Addr>, owners: map<Tid, set<Addr>>, chain: seq<Addr>) {
    && NoRepeats(chain)
    && (forall i :: 0 <= i < |chain| ==> chain[i] in slots)
    && (forall t, a :: t in owners && a in owners[t] ==> a in slots && a !in chain)
    && (forall t, u, a :: t in owners && u in owners && t != u && a in owners[t] ==> a !in owners[u])
    && (forall a :: a in slots ==> a in chain || exists t :: t in owners && a in owners[t])
  }

  /** No client holds the very slot its thread has in flight. */
  ghost predicate ApartFromFlight(s: State) {
    forall t :: t in s.pc && t in s.held ==> s.held[t] !! InFlight(s.pc[t])
  }

  /** The tag a head word carries after a given number of exchanges. */
  function TagAfter(pool: Pool, swaps: nat): nat {
    (|pool.slots| + 1 + swaps) % TAGS
  }

  /** What a thread in a retry loop knows: an old head word, current if nothing was exchanged since. */
  ghost predicate Fresh(pool: Pool, s: State, pc: PC) {
    match pc
    case AllocLoop(id, expected, since) => HeadSeen(pool, s, expected, since) && id != 0
    case AllocReady(id, expected, nextWord, since) =>
      && HeadSeen(pool, s, expected, since) && id != 0 && PtrOf(expected) != 0
      && (since == s.swaps ==> PtrOf(expected) in s.next && nextWord == s.next[PtrOf(expected)])
    case AllocWon(id, slot) => id != 0
    case AllocTyped(id, slot) => id != 0 && slot in s.typeId && s.typeId[slot] == id
    case FreeEntered(slot) => slot in s.typeId && s.typeId[slot] != 0
    case FreeLoop(slot, expected, since) => HeadSeen(pool, s, expected, since)
    case FreeReady(slot, expected, since) =>
      HeadSeen(pool, s, expected, since) && slot in s.next && PtrOf(s.next[slot]) == PtrOf(expected)
    case FreeScanning(_) => false
    case _ => true
  }

  ghost predicate HeadSeen(pool: Pool, s: State, expected: nat, since: nat) {
    && since <= s.swaps && TagOf(expected) == TagAfter(pool, since)
    && (since == s.swaps ==> expected == s.head)
    && (PtrOf(expected) == 0 || PtrOf(expected) in Arena(pool))
  }

  ghost predicate Threads(pool: Pool, s: State) {
    forall t :: t in s.pc ==> Fresh(pool, s, s.pc[t])
  }

  ghost predicate Typed(s: State) {
    forall t, a :: t in s.held && a in s.held[t] ==> a in s.typeId && s.typeId[a] != 0
  }

  ghost predicate Inv(pool: Pool, s: State, chain: seq<Addr>) {
    && ValidPool(pool) && Domains(pool, s) && FreeList(s.next, PtrOf(s.head), chain)
       && TagOf(s.head) == TagAfter(pool, s.swaps)
    && Partition(Arena(pool), Owners(s), chain) && ApartFromFlight(s) && Threads(pool, s) && Typed(s)
  }

  // --- Every step keeps it ---

  /** Within the window equal tags mean no exchange in between: the tag does defeat ABA. */
  lemma TagsTellApart(pool: Pool, since: nat, now: nat)
    requires since <= now < since + TAGS && TagAfter(pool, since) == TagAfter(pool, now)
    ensures since == now
  {
    var a, b := |pool.slots| + 1 + since, |pool.slots| + 1 + now;
    assert (b - a) % TAGS == 0;
  }

  lemma OwnersChange(s: State, s': State, t: Tid)
    requires s.pc.Keys == s.held.Keys == s'.pc.Keys == s'.held.Keys && t in s.pc
    requires s'.pc == s.pc[t := s'.pc[t]] && s'.held == s.held[t := s'.held[t]]
    ensures Owners(s') == Owners(s)[t := Owned(s', t)]
    ensures Owned(s', t) == Owned(s, t) ==> Owners(s') == Owners(s)
  {
    forall u | u in s.pc && u != t ensures Owners(s')[u] == Owners(s)[u] {
    }
    assert Owners(s).Keys == s.pc.Keys;
  }

  /** Slots owned by different threads differ. */
  lemma OwnersDiffer(pool: Pool, s: State, chain: seq<Addr>, t: Tid, u: Tid)
    requires s.pc.Keys == s.held.Keys && Partition(Arena(pool), Owners(s), chain)
    requires t in s.pc && u in s.pc && t != u && InFlight(s.pc[t]) != {}
    ensures s.pc[t].slot !in s.held[u] && s.pc[t].slot !in InFlight(s.pc[u]) && s.pc[t].slot !in chain
    ensures s.pc[t].slot in Arena(pool)
  {
    assert s.pc[t].slot in Owners(s)[t];
    assert s.pc[t].slot !in Owners(s)[u];
  }

  /** A step that only moves one program counter, keeping its slot in flight. */
  lemma MoveKeeps(pool: Pool, s: State, chain: seq<Addr>, t: Tid, pc: PC)
    requires Inv(pool, s, chain) && t in s.pc && InFlight(pc) == InFlight(s.pc[t]) && Fresh(pool, s, pc)
    ensures Inv(pool, s.(pc := s.pc[t := pc]), chain)
  {
    hide TagOf, PtrOf, Partition, TagAfter, FreeList, ValidPool;
    var s' := s.(pc := s.pc[t := pc]);
    OwnersChange(s, s', t);
    forall u | u in s'.pc ensures Fresh(pool, s', s'.pc[u]) {
      assert Fresh(pool, s, if u == t then pc else s.pc[u]);
    }
  }

  /** Writing the type id of a slot in flight disturbs nobody. */
  lemma WriteTypeKeeps(pool: Pool, s: State, chain: seq<Addr>, t: Tid, id: nat, pc: PC)
    requires Inv(pool, s, chain) && t in s.pc && InFlight(s.pc[t]) != {} && InFlight(pc) == InFlight(s.pc[t])
    requires Fresh(pool, s.(typeId := s.typeId[s.pc[t].slot := id]), pc)
    ensures Inv(pool, s.(typeId := s.typeId[s.pc[t].slot := id], pc := s.pc[t := pc]), chain)
  {
    hide TagOf, PtrOf, Partition, TagAfter, FreeList, ValidPool;
    var slot := s.pc[t].slot;
    var s' := s.(typeId := s.typeId[slot := id], pc := s.pc[t := pc]);
    OwnersChange(s, s', t);
    forall u | u in s'.pc ensures Fresh(pool, s', s'.pc[u]) {
      if u != t {
        OwnersDiffer(pool, s, chain, t, u);
        assert Fresh(pool, s, s.pc[u]);
      }
    }
    assert slot in Arena(pool) by { SlotInArena(pool, s, chain, t); }
    assert Typed(s') by {
      forall u, a | u in s'.held && a in s'.held[u] ensures a in s'.typeId && s'.typeId[a] != 0 {
        if u != t { OwnersDiffer(pool, s, chain, t, u); }
      }
    }
  }

  lemma SlotInArena(pool: Pool, s: State, chain: seq<Addr>, t: Tid)
    requires s.pc.Keys == s.held.Keys && Partition(Arena(pool), Owners(s), chain)
    requires t in s.pc && InFlight(s.pc[t]) != {}
    ensures s.pc[t].slot in Arena(pool) && s.pc[t].slot !in chain
  {
    assert s.pc[t].slot in Owners(s)[t];
  }

  /** A slot passes from flight to the client or back. */
  lemma HandOverKeeps(pool: Pool, s: State, chain: seq<Addr>, s': State, t: Tid)
    requires Inv(pool, s, chain) && t in s.pc && s'.pc.Keys == s.pc.Keys == s'.held.Keys
    requires s' == s.(pc := s.pc[t := s'.pc[t]], held := s.held[t := s'.held[t]], length := s'.length)
    requires Owned(s', t) == Owned(s, t) && s'.held[t] !! InFlight(s'.pc[t])
    requires Fresh(pool, s, s'.pc[t])
    requires forall a :: a in s'.held[t] ==> a in s.typeId && s.typeId[a] != 0
    ensures Inv(pool, s', chain)
  {
    hide TagOf, PtrOf, Partition, TagAfter, FreeList, ValidPool;
    OwnersChange(s, s', t);
    forall u | u in s'.pc ensures Fresh(pool, s', s'.pc[u]) {
      assert Fresh(pool, s, if u == t then s'.pc[t] else s.pc[u]);
    }
  }

  lemma LinkOutside(next: map<Addr, nat>, first: Addr, chain: seq<Addr>, slot: Addr, word: nat)
    requires FreeList(next, first, chain) && slot !in chain
    ensures FreeList(next[slot := word], first, chain)
  {
  }

  lemma FreeListPop(next: map<Addr, nat>, first: Addr, chain: seq<Addr>)
    requires FreeList(next, first, chain) && first != 0
    ensures chain != [] && chain[0] == first && first in next
    ensures FreeList(next, PtrOf(next[first]), chain[1..])
  {
    hide PtrOf;
    var rest := chain[1..];
    forall i | 0 <= i < |rest|
      ensures rest[i] in next && PtrOf(next[rest[i]]) == After(rest, i)
    {
      assert rest[i] == chain[i + 1];
    }
  }

  lemma FreeListPush(next: map<Addr, nat>, first: Addr, chain: seq<Addr>, slot: Addr)
    requires FreeList(next, first, chain) && slot in next && PtrOf(next[slot]) == first
    ensures FreeList(next, slot, [slot] + chain)
  {
    hide PtrOf;
    var longer := [slot] + chain;
    forall i | 0 <= i < |longer|
      ensures longer[i] in next && PtrOf(next[longer[i]]) == After(longer, i)
    {
      if i > 0 { assert longer[i] == chain[i - 1]; }
    }
  }

  lemma PartitionPop(slots: set<Addr>, owners: map<Tid, set<Addr>>, chain: seq<Addr>, t: Tid)
    requires Partition(slots, owners, chain) && chain != [] && t in owners
    ensures Partition(slots, owners[t := owners[t] + {chain[0]}], chain[1..])
  {
    var owners' := owners[t := owners[t] + {chain[0]}];
    assert chain == [chain[0]] + chain[1..];
    forall a | a in slots ensures a in chain[1..] || exists u :: u in owners' && a in owners'[u] {
      if a == chain[0] {
        assert a in owners'[t];
      } else if a !in chain {
        var u :| u in owners && a in owners[u];
        assert a in owners'[u];
      }
    }
  }

  lemma PartitionPush(slots: set<Addr>, owners: map<Tid, set<Addr>>, chain: seq<Addr>, t: Tid, slot: Addr)
    requires Partition(slots, owners, chain) && t in owners && slot in owners[t]
    ensures Partition(slots, owners[t := owners[t] - {slot}], [slot] + chain)
  {
    var owners' := owners[t := owners[t] - {slot}];
    forall a | a in slots ensures a in [slot] + chain || exists u :: u in owners' && a in owners'[u] {
      if a != slot && a !in chain {
        var u :| u in owners && a in owners[u];
        assert a in owners'[u];
      }
    }
  }

  lemma LinkKeepsThreads(pool: Pool, s: State, chain: seq<Addr>, t: Tid)
    requires Inv(pool, s, chain) && t in s.pc && s.pc[t].FreeLoop?
    ensures Threads(pool, Linked(s, t)) && ApartFromFlight(Linked(s, t)) && Typed(Linked(s, t))
  {
    hide TagOf, PtrOf, Partition, TagAfter, FreeList, ValidPool;
    var s' := Linked(s, t);
    SlotInArena(pool, s, chain, t);
    forall u | u in s'.pc ensures Fresh(pool, s', s'.pc[u]) {
      assert Fresh(pool, s, s.pc[u]);
      if u != t {
        OwnersDiffer(pool, s, chain, t, u);
        if s.pc[u].AllocReady? && s.pc[u].since == s.swaps {
          FreeListPop(s.next, PtrOf(s.head), chain);
        }
      }
    }
  }

  lemma LinkKeeps(pool: Pool, s: State, chain: seq<Addr>, t: Tid)
    requires Inv(pool, s, chain) && t in s.pc && s.pc[t].FreeLoop?
    ensures Inv(pool, Linked(s, t), chain)
  {
    hide TagOf, PtrOf, Partition, TagAfter, FreeList, Threads, ValidPool, Arena, Typed, ApartFromFlight;
    assert Owners(Linked(s, t)) == Owners(s) by { OwnersChange(s, Linked(s, t), t); }
    SlotInArena(pool, s, chain, t);
    LinkOutside(s.next, PtrOf(s.head), chain, s.pc[t].slot, Pack(TagOf(s.pc[t].expected) + 1, PtrOf(s.pc[t].expected)));
    assert Linked(s, t).next.Keys == s.next.Keys;
    LinkKeepsThreads(pool, s, chain, t);
  }

  /** A successful exchange makes every other loaded head stale, so nothing is claimed of it. */
  lemma SwapKeepsThreads(pool: Pool, s: State, t: Tid, ptr: Addr, pc: PC)
    requires Threads(pool, s) && t in s.pc && (s.pc[t].AllocReady? || s.pc[t].FreeReady?)
    requires pc.Idle? || (pc.AllocWon? && pc.id != 0)
    ensures Threads(pool, Swapped(s, t, ptr, pc))
  {
    hide TagOf, PtrOf, TagAfter;
    var s' := Swapped(s, t, ptr, pc);
    forall u | u in s'.pc ensures Fresh(pool, s', s'.pc[u]) {
      assert Fresh(pool, s, s.pc[u]);
    }
  }

  /** The exchange succeeds only against the current head, whose tag the thread has right; a free wrote its
      own link. */
  lemma SwapIsCurrent(pool: Pool, s: State, t: Tid)
    requires Threads(pool, s) && TagOf(s.head) == TagAfter(pool, s.swaps)
    requires t in s.pc && (s.pc[t].AllocReady? || s.pc[t].FreeReady?) && s.head == s.pc[t].expected
    ensures forall ptr, pc :: TagOf(Swapped(s, t, ptr, pc).head) == TagAfter(pool, s.swaps + 1)
    ensures s.pc[t].AllocReady? ==> s.pc[t].id != 0 && PtrOf(s.head) != 0
    ensures s.pc[t].FreeReady? ==> s.pc[t].slot in s.next && PtrOf(s.next[s.pc[t].slot]) == PtrOf(s.head)
  {
    hide TagOf, PtrOf;
    assert Fresh(pool, s, s.pc[t]);
  }

  /** Within the window nothing was exchanged since the load, so the link holds. */
  lemma WindowHoldsLink(pool: Pool, s: State, chain: seq<Addr>, t: Tid, step: Step)
    requires Inv(pool, s, chain) && Enabled(s, t, step) && InWindow(s, t, step)
    ensures LinkHolds(s, t, step)
  {
    hide TagOf, PtrOf, Partition, FreeList;
    if step.SwapForAlloc? && !step.spurious && s.head == s.pc[t].expected {
      assert Fresh(pool, s, s.pc[t]);
      TagsTellApart(pool, s.pc[t].since, s.swaps);
    }
  }

  lemma PopKeeps(pool: Pool, s: State, chain: seq<Addr>, t: Tid)
    requires Inv(pool, s, chain) && t in s.pc && s.pc[t].AllocReady? && s.head == s.pc[t].expected
    requires PtrOf(s.head) in s.next && PtrOf(s.pc[t].nextWord) == PtrOf(s.next[PtrOf(s.head)])
    ensures chain != [] && PtrOf(s.head) == chain[0]
    ensures Inv(pool, Swapped(s, t, PtrOf(s.pc[t].nextWord), AllocWon(s.pc[t].id, PtrOf(s.head))), chain[1..])
  {
    hide TagOf, PtrOf, Partition, FreeList, TagAfter, Fresh, Threads, ValidPool;
    var pc := AllocWon(s.pc[t].id, PtrOf(s.head));
    var s' := Swapped(s, t, PtrOf(s.pc[t].nextWord), pc);
    SwapIsCurrent(pool, s, t);
    FreeListPop(s.next, PtrOf(s.head), chain);
    SwapKeepsThreads(pool, s, t, PtrOf(s.pc[t].nextWord), pc);
    PartitionPop(Arena(pool), Owners(s), chain, t);
    OwnersChange(s, s', t);
    assert Owned(s', t) == Owned(s, t) + {chain[0]};
    HeadNotOwned(pool, s, chain, t);
  }

  lemma HeadNotOwned(pool: Pool, s: State, chain: seq<Addr>, t: Tid)
    requires s.pc.Keys == s.held.Keys && Partition(Arena(pool), Owners(s), chain) && chain != [] && t in s.pc
    ensures chain[0] !in s.held[t]
  {
    assert Owners(s)[t] == Owned(s, t);
    assert forall a :: a in Owners(s)[t] ==> a !in chain;
  }

  lemma SlotPacks(pool: Pool, slot: Addr, tag: nat)
    requires ValidPool(pool) && slot in Arena(pool)
    ensures PtrOf(Pack(tag, slot)) == slot
  {
  }

  lemma PushKeeps(pool: Pool, s: State, chain: seq<Addr>, t: Tid)
    requires Inv(pool, s, chain) && t in s.pc && s.pc[t].FreeReady?
    requires s.head == s.pc[t].expected
    ensures Inv(pool, Swapped(s, t, s.pc[t].slot, Idle), [s.pc[t].slot] + chain)
  {
    hide TagOf, PtrOf, Pack, Partition, FreeList, TagAfter, Fresh, Threads, ValidPool;
    var slot := s.pc[t].slot;
    var s' := Swapped(s, t, slot, Idle);
    SwapIsCurrent(pool, s, t);
    SlotInArena(pool, s, chain, t);
    SwapKeepsThreads(pool, s, t, slot, Idle);
    PartitionPush(Arena(pool), Owners(s), chain, t, slot);
    OwnersChange(s, s', t);
    assert Owned(s', t) == Owned(s, t) - {slot};
    SlotPacks(pool, slot, TagOf(s.pc[t].expected) + 1);
    FreeListPush(s.next, PtrOf(s.head), chain, slot);
  }

  lemma HeadIsSeen(pool: Pool, s: State, chain: seq<Addr>)
    requires Inv(pool, s, chain)
    ensures HeadSeen(pool, s, s.head, s.swaps)
  {
  }

  lemma ThreadIsFresh(pool: Pool, s: State, chain: seq<Addr>, t: Tid)
    requires Inv(pool, s, chain) && t in s.pc
    ensures Fresh(pool, s, s.pc[t])
  {
  }

  /** Steps that only load, or whose exchange fails. */
  lemma LoadStepKeeps(pool: Pool, s: State, chain: seq<Addr>, t: Tid, step: Step)
    requires Inv(pool, s, chain) && Enabled(s, t, step)
    requires step.CallAlloc? || step.LoadNext? || step.ReadType? || step.LoadHead?
             || ((step.SwapForAlloc? || step.SwapForFree?) && (s.head != s.pc[t].expected || step.spurious))
    ensures Inv(pool, Do(pool, s, t, step), chain)
  {
    hide Inv, HeadSeen, TagOf, PtrOf, TagAfter;
    HeadIsSeen(pool, s, chain);
    ThreadIsFresh(pool, s, chain, t);
    if step.LoadNext? && PtrOf(s.pc[t].expected) != 0 {
      ExpectedIsSlot(pool, s, chain, s.pc[t].expected, s.pc[t].since);
    }
    MoveKeeps(pool, s, chain, t, Do(pool, s, t, step).pc[t]);
  }

  /** Steps that write a slot in flight or pass it between thread and client. */
  lemma StoreStepKeeps(pool: Pool, s: State, chain: seq<Addr>, t: Tid, step: Step)
    requires Inv(pool, s, chain) && Enabled(s, t, step)
    requires step.StampType? || step.StampLength? || step.CallFree? || step.ClearType?
    ensures Inv(pool, Do(pool, s, t, step), chain)
  {
    hide Inv, HeadSeen, TagOf, PtrOf, TagAfter;
    var pc := s.pc[t];
    var s' := Do(pool, s, t, step);
    ThreadIsFresh(pool, s, chain, t);
    HeldIsTyped(pool, s, chain, t);
    match step
    case StampType => WriteTypeKeeps(pool, s, chain, t, pc.id, s'.pc[t]);
    case ClearType => WriteTypeKeeps(pool, s, chain, t, 0, s'.pc[t]);
    case _ => HandOverKeeps(pool, s, chain, s', t);
  }

  /** The step wins its exchange of the head. */
  predicate Wins(s: State, t: Tid, step: Step)
    requires Enabled(s, t, step)
  {
    && ((step.SwapForAlloc? && !step.spurious) || (step.SwapForFree? && !step.spurious))
    && s.head == s.pc[t].expected
  }

  /** Every step of every thread keeps the invariant: an allocation that wins takes the first slot off the free list, a
      free that wins puts its slot in front, and no other step changes the list. */
  lemma StepKeeps(pool: Pool, s: State, chain: seq<Addr>, t: Tid, step: Step) returns (chain': seq<Addr>)
    requires Inv(pool, s, chain) && Enabled(s, t, step) && LinkHolds(s, t, step)
    ensures Inv(pool, Do(pool, s, t, step), chain')
    ensures Wins(s, t, step) && step.SwapForAlloc? ==> chain != [] && chain' == chain[1..]
    ensures Wins(s, t, step) && step.SwapForFree? ==> chain' == [s.pc[t].slot] + chain
    ensures !Wins(s, t, step) ==> chain' == chain
  {
    hide Inv, TagOf, PtrOf;
    chain' := chain;
    if step.SwapForAlloc? && s.head == s.pc[t].expected && !step.spurious {
      PopKeeps(pool, s, chain, t);
      chain' := chain[1..];
    } else if step.SwapForFree? && s.head == s.pc[t].expected && !step.spurious {
      PushKeeps(pool, s, chain, t);
      chain' := [s.pc[t].slot] + chain;
    } else if step.Link? {
      LinkKeeps(pool, s, chain, t);
    } else if step.StampType? || step.StampLength? || step.CallFree? || step.ClearType? {
      StoreStepKeeps(pool, s, chain, t, step);
    } else {
      LoadStepKeeps(pool, s, chain, t, step);
    }
  }

  lemma ExpectedIsSlot(pool: Pool, s: State, chain: seq<Addr>, expected: nat, since: nat)
    requires Inv(pool, s, chain) && HeadSeen(pool, s, expected, since) && PtrOf(expected) != 0
    ensures PtrOf(expected) in s.next
  {
  }

  lemma HeldIsTyped(pool: Pool, s: State, chain: seq<Addr>, t: Tid)
    requires Inv(pool, s, chain) && t in s.pc
    ensures t in s.held && s.pc.Keys == s.held.Keys
    ensures forall a :: a in s.held[t] ==> a in s.typeId && s.typeId[a] != 0
    ensures s.held[t] !! InFlight(s.pc[t])
  {
    hide TagOf, PtrOf, TagAfter, FreeList, Partition, Threads, ValidPool;
  }

  // --- The fresh pool ---

  /** A head word and `next` words that list the slots in arena order under falling tags. */
  ghost predicate Carved(pool: Pool, head: nat, next: map<Addr, nat>) {
    && head == Pack(|pool.slots| + 1, if pool.slots == [] then 0 else pool.slots[0])
    && next.Keys == Arena(pool)
    && forall i :: 0 <= i < |pool.slots| ==> next[pool.slots[i]] == Pack(|pool.slots| - i, After(pool.slots, i))
  }

  /** A fresh pool: all slots on the free list, no thread inside a call, nobody holding anything. */
  ghost predicate Initial(pool: Pool, s: State) {
    && Carved(pool, s.head, s.next)
    && s.typeId.Keys == Arena(pool) && s.pc.Keys == s.held.Keys
    && (forall t :: t in s.pc ==> s.pc[t] == Idle && s.held[t] == {})
    && s.swaps == 0
  }

  lemma InitialHolds(pool: Pool, s: State)
    requires ValidPool(pool) && Initial(pool, s)
    ensures Inv(pool, s, pool.slots)
  {
    InitialPartition(pool, Owners(s));
    InitialList(pool, s.head, s.next);
    hide TagOf, PtrOf, Arena, Carved, Partition, FreeList, ValidPool, Pack, TagAfter;
  }

  lemma InitialList(pool: Pool, head: nat, next: map<Addr, nat>)
    requires ValidPool(pool) && Carved(pool, head, next)
    ensures FreeList(next, PtrOf(head), pool.slots) && TagOf(head) == TagAfter(pool, 0)
  {
    hide TagOf, PtrOf, Pack, After;
    forall i | 0 <= i < |pool.slots|
      ensures pool.slots[i] in next && PtrOf(next[pool.slots[i]]) == After(pool.slots, i)
    {
      AfterIsAddress(pool, i);
    }
  }

  lemma AfterIsAddress(pool: Pool, i: nat)
    requires ValidPool(pool)
    ensures After(pool.slots, i) < ADDRESSES
  {
  }

  lemma InitialPartition(pool: Pool, owners: map<Tid, set<Addr>>)
    requires ValidPool(pool) && forall t :: t in owners ==> owners[t] == {}
    ensures Partition(Arena(pool), owners, pool.slots)
  {
  }

  /** Constructing a pool: carves the arena from the last slot down, each slot pointing at the
      one built before it under a rising tag. */
  method BuildFreeList(pool: Pool) returns (head: nat, next: map<Addr, nat>)
    requires ValidPool(pool)
    ensures Carved(pool, head, next)
  {
    hide TagOf, PtrOf, Pack, After;
    var tag, first: Addr, i := 1, 0, |pool.slots|;
    next := map[];
    while i > 0
      invariant 0 <= i <= |pool.slots| && tag == |pool.slots| - i + 1
      invariant first == if i < |pool.slots| then pool.slots[i] else 0
      invariant next.Keys <= Arena(pool)
      invariant forall j :: i <= j < |pool.slots| ==>
                  pool.slots[j] in next && next[pool.slots[j]] == Pack(|pool.slots| - j, After(pool.slots, j))
    {
      i := i - 1;
      assert first == After(pool.slots, i) by { AfterIs(pool.slots, i); }
      next := next[pool.slots[i] := Pack(tag, first)];
      first := pool.slots[i];
      tag := tag + 1;
    }
    head := Pack(tag, first);
  }

  lemma AfterIs(chain: seq<Addr>, i: nat)
    ensures After(chain, i) == if i + 1 < |chain| then chain[i + 1] else 0
  {
  }
}
