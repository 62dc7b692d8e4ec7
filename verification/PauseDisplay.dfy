/** The pause on display: what is captured, what a write does to it, and when it is what the run would show. */
module PauseDisplay {
  import opened Base
  import opened Machine
  import opened MemoryBytes
  import opened MemoryPricing
  import opened Text
  import opened Variables
  import M = Memory

  /** A write applied in place to the state a pause is in; None when the host refuses the memory it needs. */
  function Edit(shown: Shown, m: Mutation, limit: M.AllocLimit): Option<Shown> {
    var p := ApplyMutation(m, limit, Patched(shown.sto, shown.transient, shown.frame.memory, true));
    if p.ok then Some(Shown(shown.frame.(memory := p.memory), shown.acc, p.sto, p.transient)) else None
  }

  /** What the session keeps of a pause: the frame with a copy of its memory, and the lists of the code's variables. */
  datatype Display = Display(
    step: nat, frame: Frame, bundle: Option<Bundle>, storage: seq<Variable>, transient: seq<Variable>)

  /** capturePause: without metadata for the code there are no lists. */
  function Capture(pause: Pause, bundle: Option<Bundle>): Display {
    var f, a := pause.shown.frame, pause.shown.frame.ctx.address;
    match bundle
    case None => Display(pause.step, f, None, [], [])
    case Some(b) =>
      Display(pause.step, f, bundle, Captured(b.persistent, PERSISTENT, a, pause.shown.sto.data),
              Captured(b.transient, TRANSIENT, a, pause.shown.transient))
  }

  /** A request from the user: go on by one step, or write at the current pause; a write comes as text. */
  datatype Request =
    | NextStep
    | Storage(address: string, scope: string, slot: string, value: string)
    | Memory(offset: u64, data: string)

  /** What a write is journaled as; None when a field does not parse or nothing says which contract is meant. */
  function MutationOf(target: Option<Address>, step: nat, r: Request): Option<Mutation>
    requires !r.NextStep?
  {
    match r
    case Storage(address, scope, slot, value) =>
      var a := if ParseAddress(address).Some? then ParseAddress(address) else target;
      var k, v := DecodeHash(slot), DecodeHash(value);
      if a.None? || k.None? || v.None? then None
      else Some(StorageWrite(step, scope == TRANSIENT, (a.value, k.value), v.value))
    case Memory(offset, text) =>
      var data := DecodeBytes(text);
      if data.None? || |data.value| >= 0x20_0000_0000 then None else Some(MemoryWrite(step, offset, data.value))
  }

  /** The session's own copy of memory after a write: extended to the write's end, not to a whole word. */
  function DisplayedMemory(memory: M.Store, offset: u64, data: M.Store): M.Store {
    var end := offset + |data|;
    if data == [] || end >= 0x20_0000_0000 then memory
    else M.Overwrite(if end > |memory| then memory + Zeros(end - |memory|) else memory, offset, data)
  }

  /** A write applied to the pause on display; one too long for any buffer leaves the display alone. */
  function Applied(d: Display, r: Request, m: Mutation): Display
    requires r.Storage? || m.MemoryWrite?
  {
    if r.Storage? then
      var scope := if r.scope == "" then PERSISTENT else r.scope;
      var slot, value := NormalizeHex32(r.slot), NormalizeHex32(r.value);
      if scope == TRANSIENT then d.(transient := Put(d.transient, scope, slot, value))
      else d.(storage := Put(d.storage, scope, slot, value))
    else
      d.(frame := d.frame.(memory := DisplayedMemory(d.frame.memory, m.offset, m.data)))
  }

  /** The same frame, except that one memory may end in more zeros than the other. */
  ghost predicate Resembles(a: Frame, b: Frame) {
    && a == b.(memory := a.memory)
    && forall i: nat :: M.ByteAt(a.memory, i) == M.ByteAt(b.memory, i)
  }

  /** The lists begin as a capture of that state would show them; what follows was added by writes. */
  ghost predicate VariablesRight(d: Display, l: Shown) {
    var now := Capture(Pause(d.step, l), d.bundle);
    && |now.storage| <= |d.storage| && d.storage[..|now.storage|] == now.storage
    && |now.transient| <= |d.transient| && d.transient[..|now.transient|] == now.transient
  }

  /** What a served write leaves in memory. */
  lemma SetMemoryBytes(memory: M.Store, offset: u64, data: M.Store, limit: M.AllocLimit)
    requires M.Set(memory, offset, data, limit).Some?
    ensures var r := M.Set(memory, offset, data, limit).value; var end := offset + |data|;
      && (data != [] ==> end < 0x20_0000_0000)
      && |r| == (if data == [] || end <= |memory| then |memory| else 32 * Words(end))
      && forall i: nat :: M.ByteAt(r, i) == if offset <= i < end then data[i - offset] else M.ByteAt(memory, i)
  {
    hide M.Set;
    SetBytes(memory, offset, data, limit);
  }

  lemma DisplayedBytes(memory: M.Store, offset: u64, data: M.Store, i: nat)
    requires data != [] ==> offset + |data| < 0x20_0000_0000
    ensures M.ByteAt(DisplayedMemory(memory, offset, data), i)
         == if offset <= i < offset + |data| then data[i - offset] else M.ByteAt(memory, i)
  {
  }

  lemma MemoryExactIff(memory: M.Store, offset: u64, data: M.Store, limit: M.AllocLimit)
    requires M.Set(memory, offset, data, limit).Some?
    ensures DisplayedMemory(memory, offset, data) == M.Set(memory, offset, data, limit).value
      <==> data == [] || offset + |data| <= |memory| || (offset + |data|) % 32 == 0
  {
    hide M.Set, DisplayedMemory, M.ByteAt;
    SetMemoryBytes(memory, offset, data, limit);
    var live, shown := M.Set(memory, offset, data, limit).value, DisplayedMemory(memory, offset, data);
    forall i: nat ensures M.ByteAt(shown, i) == M.ByteAt(live, i) {
      DisplayedBytes(memory, offset, data, i);
    }
    DisplayedLength(memory, offset, data);
    SameBytes(shown, live);
  }

  lemma DisplayedLength(memory: M.Store, offset: u64, data: M.Store)
    requires data != [] ==> offset + |data| < 0x20_0000_0000
    ensures |DisplayedMemory(memory, offset, data)|
         == if data == [] || offset + |data| <= |memory| then |memory| else offset + |data|
  {
  }

  lemma SameBytes(a: M.Store, b: M.Store)
    requires forall i: nat :: M.ByteAt(a, i) == M.ByteAt(b, i)
    ensures a == b <==> |a| == |b|
  {
    if |a| == |b| {
      assert forall i :: 0 <= i < |a| ==> a[i] == M.ByteAt(a, i) && b[i] == M.ByteAt(b, i);
      assert a == b;
    }
  }

  /** Displaying a write does to a frame that resembles the live one what applying it does to that. */
  lemma AppliedResembles(d: Display, l: Shown, r: Request, m: Mutation, limit: M.AllocLimit)
    requires (r.Storage? <==> m.StorageWrite?) && !r.NextStep?
    requires Resembles(d.frame, l.frame) && Edit(l, m, limit).Some?
    ensures Resembles(Applied(d, r, m).frame, Edit(l, m, limit).value.frame)
  {
    if r.Memory? {
      SetMemoryBytes(l.frame.memory, m.offset, m.data, limit);
      var live, shown := Edit(l, m, limit).value.frame.memory, Applied(d, r, m).frame.memory;
      forall i: nat ensures M.ByteAt(shown, i) == M.ByteAt(live, i) {
        assert M.ByteAt(d.frame.memory, i) == M.ByteAt(l.frame.memory, i);
        DisplayedBytes(d.frame.memory, m.offset, m.data, i);
      }
    }
  }

  // ---------------------------------------------------------------- what a write request writes

  /** These bytes at that offset, and every other byte as before. */
  ghost predicate BytesPut(was: M.Store, now: M.Store, offset: nat, data: Bytes) {
    forall i: nat :: M.ByteAt(now, i) == if offset <= i < offset + |data| then data[i - offset] else M.ByteAt(was, i)
  }

  /** The data of a memory request lies within what any host can allocate. */
  predicate InReach(offset: u64, data: Bytes) {
    data == [] || offset + |data| < 0x20_0000_0000
  }

  /** A memory request writes the bytes its text denotes at the offset it names, on the display and in the state. */
  lemma MemoryRequest(d: Display, l: Shown, target: Option<Address>, offset: u64, text: string, limit: M.AllocLimit)
    ensures var m := MutationOf(target, d.step, Memory(offset, text));
      (m.Some? <==> DecodeBytes(text).Some? && |DecodeBytes(text).value| < 0x20_0000_0000)
    ensures var m := MutationOf(target, d.step, Memory(offset, text));
      m.Some? ==>
        var data := DecodeBytes(text).value;
        var d1, l1 := Applied(d, Memory(offset, text), m.value), Edit(l, m.value, limit);
        && d1 == d.(frame := d.frame.(memory := d1.frame.memory))
        && BytesPut(d.frame.memory, d1.frame.memory, offset, if InReach(offset, data) then data else [])
        && (l1.Some? <==> data == [] || offset + |data| <= |l.frame.memory| || 32 * Words(offset + |data|) <= limit)
        && (l1.Some? ==> InReach(offset, data) && BytesPut(l.frame.memory, l1.value.frame.memory, offset, data)
                         && l1.value == l.(frame := l.frame.(memory := l1.value.frame.memory)))
  {
    hide DecodeBytes, M.Set, DisplayedMemory;
    var m := MutationOf(target, d.step, Memory(offset, text));
    if m.Some? {
      var data := DecodeBytes(text).value;
      var reached := if InReach(offset, data) then data else [];
      forall i: nat ensures M.ByteAt(DisplayedMemory(d.frame.memory, offset, data), i)
        == if offset <= i < offset + |reached| then data[i - offset] else M.ByteAt(d.frame.memory, i)
      {
        if InReach(offset, data) {
          DisplayedBytes(d.frame.memory, offset, data, i);
        } else {
          OutOfReach(d.frame.memory, offset, data);
        }
      }
      SetServedIff(l.frame.memory, offset, data, limit);
      if Edit(l, m.value, limit).Some? {
        SetMemoryBytes(l.frame.memory, offset, data, limit);
      }
    }
  }

  lemma OutOfReach(memory: M.Store, offset: u64, data: M.Store)
    requires !InReach(offset, data)
    ensures DisplayedMemory(memory, offset, data) == memory
  {
  }

  /** The contract a storage request means. */
  function Addressed(target: Option<Address>, address: string): Option<Address> {
    if ParseAddress(address).Some? then ParseAddress(address) else target
  }

  /** Storage after one slot of one scope was given a value: every other slot of either scope is as before. */
  ghost predicate SlotPut(was: Shown, now: Shown, transientScope: bool, k: SlotKey, v: Hash) {
    && now.frame == was.frame && now.acc == was.acc
    && (forall j: SlotKey :: now.sto.Get(j) == if j == k && !transientScope then v else was.sto.Get(j))
    && (forall j: SlotKey ::
          ValueAt(now.transient, j) == if j == k && transientScope then v else ValueAt(was.transient, j))
  }

  /** A storage request gives the slot it names the value it names, in the scope it names; the frame stays. */
  lemma StorageRequest(d: Display, l: Shown, target: Option<Address>, r: Request, limit: M.AllocLimit)
    requires r.Storage?
    ensures var m := MutationOf(target, d.step, r);
      && (m.Some? <==> Addressed(target, r.address).Some? && DecodeHash(r.slot).Some? && DecodeHash(r.value).Some?)
      && (m.Some? ==>
            && Applied(d, r, m.value).frame == d.frame
            && Edit(l, m.value, limit).Some?
            && SlotPut(l, Edit(l, m.value, limit).value, r.scope == "transient",
                       (Addressed(target, r.address).value, DecodeHash(r.slot).value), DecodeHash(r.value).value))
  {
    hide DecodeHash, ParseAddress, NormalizeHex32, Put;
  }

  // ---------------------------------------------------------------- when the display is exact

  function ListOf(d: Display, transientScope: bool): seq<Variable> {
    if transientScope then d.transient else d.storage
  }

  function CountOf(d: Display, transientScope: bool): nat {
    match d.bundle
    case None => 0
    case Some(b) => VariableCount(if transientScope then b.transient else b.persistent)
  }

  /** The condition of `Variables.ShownRight`, for the list the write goes to; the display alone decides it. */
  predicate WriteShownRight(d: Display, r: Request, m: Mutation)
    requires r.Storage? && m.StorageWrite?
  {
    var list, n := ListOf(d, m.transientScope), CountOf(d, m.transientScope);
    && n <= |list|
    && ShownRight(list, n, d.frame.ctx.address, m.slot, m.value, NormalizeHex32(r.slot), NormalizeHex32(r.value))
  }

  /** The contents of one scope in a state. */
  function ContentsOf(l: Shown, transientScope: bool): Contents {
    if transientScope then l.transient else l.sto.data
  }

  /** One list of a capture: it is read from the state, and a capture of another state rereads it. */
  lemma CaptureOf(step: nat, bundle: Option<Bundle>, l: Shown, l1: Shown, transientScope: bool)
    requires l1.frame.ctx == l.frame.ctx
    ensures var list := ListOf(Capture(Pause(step, l), bundle), transientScope);
      && |list| == CountOf(Capture(Pause(step, l), bundle), transientScope)
      && ReadFrom(list, l.frame.ctx.address, ContentsOf(l, transientScope))
      && ListOf(Capture(Pause(step, l1), bundle), transientScope)
         == Reread(list, l.frame.ctx.address, ContentsOf(l1, transientScope))
  {
    hide Captured, Reread, ReadFrom, VariableCount;
    match bundle
    case None => NothingToRead(l.frame.ctx.address, ContentsOf(l, transientScope), ContentsOf(l1, transientScope));
    case Some(b) =>
      var mappings := if transientScope then b.transient else b.persistent;
      var scope := if transientScope then TRANSIENT else PERSISTENT;
      CapturedCount(mappings, scope, l.frame.ctx.address, ContentsOf(l, transientScope));
      CaptureReads(mappings, scope, l.frame.ctx.address, ContentsOf(l, transientScope), ContentsOf(l1, transientScope));
  }

  lemma NothingToRead(contract: Address, was: Contents, now: Contents)
    ensures ReadFrom([], contract, was) && Reread([], contract, now) == []
  {
  }

  /** Of two equal contents two captures show the same. */
  lemma SameContentsSameList(step: nat, bundle: Option<Bundle>, l: Shown, l1: Shown, transientScope: bool)
    requires l1.frame.ctx == l.frame.ctx && ContentsOf(l1, transientScope) == ContentsOf(l, transientScope)
    ensures ListOf(Capture(Pause(step, l1), bundle), transientScope)
         == ListOf(Capture(Pause(step, l), bundle), transientScope)
  {
    hide Captured;
  }

  ghost predicate ListRight(d: Display, l: Shown, transientScope: bool) {
    var now := ListOf(Capture(Pause(d.step, l), d.bundle), transientScope);
    |now| <= |ListOf(d, transientScope)| && ListOf(d, transientScope)[..|now|] == now
  }

  /** A served write keeps the variables on display those of the state it leads to exactly under the condition above. */
  lemma VariablesRightIff(d: Display, l: Shown, target: Option<Address>, r: Request, limit: M.AllocLimit)
    requires !r.NextStep? && MutationOf(target, d.step, r).Some?
    requires Edit(l, MutationOf(target, d.step, r).value, limit).Some?
    requires d.frame.ctx == l.frame.ctx && VariablesRight(d, l)
    ensures var m := MutationOf(target, d.step, r).value;
      VariablesRight(Applied(d, r, m), Edit(l, m, limit).value) <==> (r.Storage? ==> WriteShownRight(d, r, m))
  {
    hide Capture, ShownRight, Reread, ReadFrom, DecodeHash, DecodeBytes, ParseAddress, NormalizeHex32, M.Set;
    hide DisplayedMemory;
    var m := MutationOf(target, d.step, r).value;
    var l1, d1 := Edit(l, m, limit).value, Applied(d, r, m);
    assert VariablesRight(d1, l1) <==> ListRight(d1, l1, false) && ListRight(d1, l1, true);
    assert ListRight(d, l, false) && ListRight(d, l, true);
    if r.Memory? {
      SameContentsSameList(d.step, d.bundle, l, l1, false);
      SameContentsSameList(d.step, d.bundle, l, l1, true);
    } else {
      SameContentsSameList(d.step, d.bundle, l, l1, !m.transientScope);
      ListRightIff(d, l, l1, r, m);
    }
  }

  lemma ListRightIff(d: Display, l: Shown, l1: Shown, r: Request, m: Mutation)
    requires r.Storage? && m.StorageWrite? && m.transientScope == (r.scope == TRANSIENT)
    requires DecodeHash(r.slot) == Some(m.slot.1)
    requires l1.frame.ctx == l.frame.ctx == d.frame.ctx && ListRight(d, l, m.transientScope)
    requires ContentsOf(l1, m.transientScope) == ContentsOf(l, m.transientScope)[m.slot := m.value]
    ensures ListRight(Applied(d, r, m), l1, m.transientScope) <==> WriteShownRight(d, r, m)
  {
    hide Capture, ShownRight, Reread, ReadFrom, DecodeHash, NormalizeHex32, Put;
    var t := m.transientScope;
    var list, now := ListOf(d, t), ListOf(Capture(Pause(d.step, l), d.bundle), t);
    CaptureOf(d.step, d.bundle, l, l1, t);
    CaptureKeepsBundle(Pause(d.step, l), d.bundle);
    NormalizedReadsSame(r.slot);
    VariablesExactIff(list, |now|, d.frame.ctx.address, ContentsOf(l, t), m.slot, m.value,
                      if r.scope == "" then PERSISTENT else r.scope, NormalizeHex32(r.slot), NormalizeHex32(r.value));
  }

  lemma CaptureKeepsBundle(pause: Pause, bundle: Option<Bundle>)
    ensures Capture(pause, bundle).bundle == bundle && Capture(pause, bundle).frame == pause.shown.frame
    ensures Capture(pause, bundle).step == pause.step
  {
  }

  /** The display is what a pause in that state captures. */
  ghost predicate Exact(d: Display, l: Shown) {
    d == Capture(Pause(d.step, l), d.bundle)
  }

  /**
   * On an exact display a served write is exact again exactly when: a memory write does not make memory end inside a
   * word; a storage write is shown right, and finds its variable on the list.
   */
  lemma DisplayExactIff(d: Display, l: Shown, target: Option<Address>, r: Request, limit: M.AllocLimit)
    requires !r.NextStep? && MutationOf(target, d.step, r).Some?
    requires Edit(l, MutationOf(target, d.step, r).value, limit).Some?
    requires Exact(d, l)
    ensures var m := MutationOf(target, d.step, r).value;
      Exact(Applied(d, r, m), Edit(l, m, limit).value) <==>
        if r.Memory? then
          m.data == [] || m.offset + |m.data| <= |l.frame.memory| || (m.offset + |m.data|) % 32 == 0
        else
          && FirstAt(ListOf(d, m.transientScope), NormalizeHex32(r.slot)) < |ListOf(d, m.transientScope)|
          && WriteShownRight(d, r, m)
  {
    hide Capture, ShownRight, DecodeHash, DecodeBytes, ParseAddress, NormalizeHex32, DisplayedMemory, M.Set, Put;
    var m := MutationOf(target, d.step, r).value;
    var l1, d1 := Edit(l, m, limit).value, Applied(d, r, m);
    var was, now := Capture(Pause(d.step, l), d.bundle), Capture(Pause(d.step, l1), d.bundle);
    CaptureKeepsBundle(Pause(d.step, l), d.bundle);
    CaptureKeepsBundle(Pause(d.step, l1), d.bundle);
    assert was.storage == ListOf(was, false) && was.transient == ListOf(was, true);
    assert now.storage == ListOf(now, false) && now.transient == ListOf(now, true);
    if r.Memory? {
      SameContentsSameList(d.step, d.bundle, l, l1, false);
      SameContentsSameList(d.step, d.bundle, l, l1, true);
      MemoryExactIff(l.frame.memory, m.offset, m.data, limit);
    } else {
      SameContentsSameList(d.step, d.bundle, l, l1, !m.transientScope);
      assert d1.frame == l1.frame;
      assert Exact(d1, l1) <==> ListOf(d1, m.transientScope) == ListOf(now, m.transientScope);
      WholeListIff(d, l, l1, r, m);
    }
  }

  lemma WholeListIff(d: Display, l: Shown, l1: Shown, r: Request, m: Mutation)
    requires r.Storage? && m.StorageWrite? && m.transientScope == (r.scope == TRANSIENT)
    requires DecodeHash(r.slot) == Some(m.slot.1)
    requires l1.frame.ctx == l.frame.ctx && Exact(d, l)
    requires ContentsOf(l1, m.transientScope) == ContentsOf(l, m.transientScope)[m.slot := m.value]
    ensures ListOf(Applied(d, r, m), m.transientScope) == ListOf(Capture(Pause(d.step, l1), d.bundle), m.transientScope)
      <==> FirstAt(ListOf(d, m.transientScope), NormalizeHex32(r.slot)) < |ListOf(d, m.transientScope)|
           && WriteShownRight(d, r, m)
  {
    hide Capture, ShownRight, Reread, ReadFrom, DecodeHash, NormalizeHex32, Put;
    var t := m.transientScope;
    CaptureOf(d.step, d.bundle, l, l1, t);
    CaptureKeepsBundle(Pause(d.step, l), d.bundle);
    NormalizedReadsSame(r.slot);
    ListExactIff(ListOf(d, t), d.frame.ctx.address, ContentsOf(l, t), m.slot, m.value,
                 if r.scope == "" then PERSISTENT else r.scope, NormalizeHex32(r.slot), NormalizeHex32(r.value));
  }

  /**
   * A write request without an address goes to the transaction's target. Issued while another contract is paused, for a
   * slot on display, it is shown as that contract's variable, which the run never gives that value.
   */
  lemma DefaultTargetMisleads(d: Display, l: Shown, target: Address, r: Request, limit: M.AllocLimit)
    requires r.Storage? && r.address == "" && target != d.frame.ctx.address && MutationOf(Some(target), d.step, r).Some?
    requires d.frame.ctx == l.frame.ctx && VariablesRight(d, l)
    requires var t := r.scope == TRANSIENT; var first := FirstAt(ListOf(d, t), NormalizeHex32(r.slot));
      first < CountOf(d, t) <= |ListOf(d, t)| && ListOf(d, t)[first].value != NormalizeHex32(r.value)
    ensures var m := MutationOf(Some(target), d.step, r).value;
      var edited := Edit(l, m, limit);
      edited.Some? && !VariablesRight(Applied(d, r, m), edited.value)
  {
    hide Capture, VariablesRight, DecodeHash, NormalizeHex32, Put;
    assert ParseAddress("").None?;
    VariablesRightIff(d, l, Some(target), r, limit);
  }
}
