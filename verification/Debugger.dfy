/** The replay session: "next" and live edits by running again from the start with a journal. */
module Debugger {
  import opened Base
  import opened Ledger
  import opened Machine
  import opened MemoryPricing
  import opened Execution
  import opened Run
  import opened Replay
  import opened TopLevel
  import opened Jobs
  import opened Text
  import opened Variables
  import opened PauseDisplay
  import M = Memory

  /** What is the same on every run of a session; `bundleFor` gives a code address the metadata loaded for it. */
  datatype Prepared = Prepared(
    env: Env, w: World, job: Job, isCall: bool, target: Option<Address>,
    bundleFor: (Address, Option<Address>) -> Option<Bundle>)

  /** Nothing has been fetched or paused yet. */
  ghost predicate Fresh(p: Prepared) {
    p.w.trace == [] && p.w.seen == 0 && p.w.pending.None?
  }

  function RunWith(p: Prepared, journal: seq<Mutation>, pauseAt: Option<nat>): JobEnd {
    RunJob(p.env, Hook(journal, pauseAt), p.w, p.job)
  }

  /** The uninterrupted run in which every journaled write was applied in place at the step it was issued at. */
  function Live(p: Prepared, journal: seq<Mutation>): seq<Event> {
    RunWith(p, journal, None).w.trace
  }

  /** That run ends in an error. */
  predicate Fails(p: Prepared, journal: seq<Mutation>) {
    RunWith(p, journal, None).failed
  }

  // ---------------------------------------------------------------- two runs of the same transaction

  lemma {:induction false} JournalAppend(journal: seq<Mutation>, m: Mutation, n: nat, limit: M.AllocLimit, p: Patched)
    ensures var q := ApplyMutations(journal, n, limit, p);
      ApplyMutations(journal + [m], n, limit, p) == if q.ok && m.step == n then ApplyMutation(m, limit, q) else q
  {
    if journal == [] {
      assert journal + [m] == [m] && [m][1..] == [];
      assert ApplyMutations([], n, limit, if m.step == n then ApplyMutation(m, limit, p) else p)
          == if m.step == n then ApplyMutation(m, limit, p) else p;
    } else if p.ok {
      assert (journal + [m])[1..] == journal[1..] + [m];
      JournalAppend(journal[1..], m, n, limit, if journal[0].step == n then ApplyMutation(journal[0], limit, p) else p);
    }
  }

  lemma PauseAgrees(journal: seq<Mutation>, k: nat)
    ensures AgreeExcept(Hook(journal, Some(k)), Hook(journal, None), k)
  {
  }

  lemma AppendAgrees(journal: seq<Mutation>, m: Mutation, pauseAt: Option<nat>)
    ensures AgreeExcept(Hook(journal, pauseAt), Hook(journal + [m], pauseAt), m.step)
  {
    forall n: nat, limit: M.AllocLimit, p: Patched | n != m.step
      ensures ApplyMutations(journal, n, limit, p) == ApplyMutations(journal + [m], n, limit, p)
    {
      JournalAppend(journal, m, n, limit, p);
    }
  }

  /** Pausing happens exactly when the uninterrupted run has that step, in its state; otherwise this is that run. */
  lemma PauseIsLive(p: Prepared, journal: seq<Mutation>, k: nat)
    requires Fresh(p)
    ensures var end := RunWith(p, journal, Some(k));
      && (end.w.pending.Some? <==> HasStep(Live(p, journal), k))
      && (end.w.pending.Some? ==>
            end.w.pending.value.step == k && Shows(Live(p, journal), k, end.w.pending.value.shown))
      && (end.w.pending.None? ==> end == RunWith(p, journal, None))
    ensures Numbered(RunWith(p, journal, None).w)
  {
    hide ApplyMutations, AgreeExcept, RunJob, Shows;
    var h1, h2 := Hook(journal, Some(k)), Hook(journal, None);
    var ends := JobEnds(RunWith(p, journal, Some(k)), RunWith(p, journal, None));
    PauseAgrees(journal, k);
    JobLater(p.env, h2, p.w, p.job);
    JobsPart(p.env, h1, h2, k, p.w, p.job);
    if wk, fk :| SplitAt(p.env, h1, h2, k, p.w, ends, wk, fk) {
      SplitPauses(p, journal, k, wk, fk);
    }
  }

  /** At the parting the pausing run takes its pause and the other records the same state. */
  lemma SplitPauses(p: Prepared, journal: seq<Mutation>, k: nat, wk: World, fk: Frame)
    requires Fresh(p)
    requires SplitAt(p.env, Hook(journal, Some(k)), Hook(journal, None), k, p.w,
                     JobEnds(RunWith(p, journal, Some(k)), RunWith(p, journal, None)), wk, fk)
    ensures var end := RunWith(p, journal, Some(k));
      && (end.w.pending.Some? <==> HasStep(Live(p, journal), k))
      && (end.w.pending.Some? ==>
            end.w.pending.value.step == k && Shows(Live(p, journal), k, end.w.pending.value.shown))
      && (end.w.pending.None? ==> end == RunWith(p, journal, None))
  {
    hide ApplyMutations, RunJob;
    var patched := ApplyMutations(journal, k, p.env.maxAlloc, Patched(wk.sto, wk.transient, fk.memory, true));
    var f1 := Fire(p.env, Hook(journal, Some(k)), wk, fk);
    var f2 := Fire(p.env, Hook(journal, None), wk, fk);
    var paused, live := RunWith(p, journal, Some(k)).w, RunWith(p, journal, None).w;
    assert f1.w.seen == k + 1 && f2.w.seen == k + 1;
    assert paused.pending == f1.w.pending;
    assert f2.w.trace <= live.trace;
    var last := f2.w.trace[|wk.trace|];
    if patched.ok {
      assert last.step == Some(k) && live.trace[|wk.trace|] == last;
    } else {
      assert f1 == f2;
      assert last.step == None;
      assert !HasStep(wk.trace, k);
      assert !HasStep(f2.w.trace, k);
    }
  }

  /** An edit made at a pause is what the next run applies there: same pause, edited in place. */
  lemma EditIsInPlace(p: Prepared, journal: seq<Mutation>, m: Mutation)
    requires Fresh(p)
    ensures var before := RunWith(p, journal, Some(m.step)).w.pending;
      var after := RunWith(p, journal + [m], Some(m.step)).w.pending;
      if before.None? then after.None?
      else
        var edited := Edit(before.value.shown, m, p.env.maxAlloc);
        after == if edited.Some? then Some(Pause(m.step, edited.value)) else None
  {
    hide ApplyMutations, ApplyMutation, AgreeExcept, RunJob;
    var k := m.step;
    var h1, h2 := Hook(journal, Some(k)), Hook(journal + [m], Some(k));
    var ends := JobEnds(RunWith(p, journal, Some(k)), RunWith(p, journal + [m], Some(k)));
    AppendAgrees(journal, m, Some(k));
    JobsPart(p.env, h1, h2, k, p.w, p.job);
    if wk, fk :| SplitAt(p.env, h1, h2, k, p.w, ends, wk, fk) {
      JournalAppend(journal, m, k, p.env.maxAlloc, Patched(wk.sto, wk.transient, fk.memory, true));
      PatchKeepsOk(m, p.env.maxAlloc, ApplyMutations(journal, k, p.env.maxAlloc,
                                                      Patched(wk.sto, wk.transient, fk.memory, true)));
      assert ends.a.pending == Fire(p.env, h1, wk, fk).w.pending;
      assert ends.b.pending == Fire(p.env, h2, wk, fk).w.pending;
    }
  }

  lemma PatchKeepsOk(m: Mutation, limit: M.AllocLimit, q: Patched)
    ensures q.ok ==> q == Patched(q.sto, q.transient, q.memory, true)
  {
  }

  /** An edit leaves every earlier step as it was. */
  lemma EarlierStepsKept(p: Prepared, journal: seq<Mutation>, m: Mutation, n: nat)
    requires Fresh(p) && n < m.step
    ensures RunWith(p, journal + [m], Some(n)).w.pending == RunWith(p, journal, Some(n)).w.pending
  {
    hide ApplyMutations, AgreeExcept, RunJob;
    var h1, h2 := Hook(journal, Some(n)), Hook(journal + [m], Some(n));
    var ends := JobEnds(RunWith(p, journal, Some(n)), RunWith(p, journal + [m], Some(n)));
    AppendAgrees(journal, m, Some(n));
    JobsPart(p.env, h1, h2, m.step, p.w, p.job);
    if wk, fk :| SplitAt(p.env, h1, h2, m.step, p.w, ends, wk, fk) {
      assert ends.a.pending == Fire(p.env, h1, wk, fk).w.pending == wk.pending;
      assert ends.b.pending == Fire(p.env, h2, wk, fk).w.pending == wk.pending;
    }
  }

  // ---------------------------------------------------------------- the session

  /**
   * What a session keeps between requests: the last position, the edits, the pause on display, and the code address it
   * was last seen in.
   */
  datatype Session = Session(
    position: int, mutations: seq<Mutation>, current: Option<Display>, codeAddr: Option<Address>, done: bool)

  const NEW_SESSION := Session(-1, [], None, None, false)

  /** The code address a run starts out with, to fall back on when looking for metadata. */
  function StartingCode(p: Prepared, s: Session): Option<Address> {
    if p.isCall || s.codeAddr.None? then p.target else s.codeAddr
  }

  function CaptureIn(p: Prepared, s: Session, pause: Pause): Display {
    Capture(pause, p.bundleFor(pause.shown.frame.ctx.codeAddr, StartingCode(p, s)))
  }

  /** "next": run again, pausing one step further than before; a run that fails first ends the request in an error. */
  function Stepped(p: Prepared, s: Session): Session
    requires s.position >= -1
  {
    var end := RunWith(p, s.mutations, Some(s.position + 1));
    if end.w.pending.Some? then
      var pause := end.w.pending.value;
      Session(pause.step, s.mutations, Some(CaptureIn(p, s, pause)), Some(pause.shown.frame.ctx.codeAddr), false)
    else if end.failed then s.(current := None, codeAddr := StartingCode(p, s))
    else Session(end.w.seen - 1, s.mutations, None, StartingCode(p, s), true)
  }

  /** The mutation a write request is journaled as; None when it is refused. */
  function Journaled(p: Prepared, s: Session, r: Request): Option<Mutation>
    requires !r.NextStep? && (s.current.Some? ==> s.position >= 0)
  {
    if s.current.None? then None else MutationOf(p.target, s.position, r)
  }

  function Written(p: Prepared, s: Session, r: Request): Session
    requires !r.NextStep? && (s.current.Some? ==> s.position >= 0)
  {
    match Journaled(p, s, r)
    case None => s
    case Some(m) => s.(mutations := s.mutations + [m], current := Some(Applied(s.current.value, r, m)))
  }

  /** The pause that running again with every edit so far would take at this position. */
  function LivePause(p: Prepared, s: Session): Option<Pause>
    requires s.position >= 0
  {
    RunWith(p, s.mutations, Some(s.position)).w.pending
  }

  /**
   * The frame on display resembles what running again with every edit so far would show at this position, and a session
   * is done only where that run has succeeded. (After a write the host refuses, the next run ends the frame at that
   * step, so there is nothing to resemble.)
   */
  ghost predicate Faithful(p: Prepared, s: Session) {
    && s.position >= -1
    && (s.current.Some? ==> s.position >= 0 && DisplayResembles(s.current.value, LivePause(p, s), s.position))
    && (s.done ==> s.current.None? && !Fails(p, s.mutations) && !HasStep(Live(p, s.mutations), s.position + 1))
  }

  ghost predicate DisplayResembles(d: Display, live: Option<Pause>, position: nat) {
    && d.step == position
    && (live.Some? ==> live.value.step == position && Resembles(d.frame, live.value.shown.frame))
  }

  /** The frame the user sees resembles that of the live, edited-in-place run at that step, if it gets there. */
  ghost predicate ShowsLive(p: Prepared, s: Session) {
    s.current.Some? && s.position >= 0 && HasStep(Live(p, s.mutations), s.position) ==>
      exists shown :: Shows(Live(p, s.mutations), s.position, shown) && Resembles(s.current.value.frame, shown.frame)
  }

  /** The variables the user sees are those of that run. */
  ghost predicate VariablesLive(p: Prepared, s: Session) {
    s.current.Some? && s.position >= 0 && LivePause(p, s).Some? ==>
      VariablesRight(s.current.value, LivePause(p, s).value.shown)
  }

  lemma PositionBound(p: Prepared, s: Session)
    requires Faithful(p, s)
    ensures s.position >= -1 && (s.current.Some? ==> s.position >= 0 && s.current.value.step == s.position)
  {
  }

  lemma FaithfulIsLive(p: Prepared, s: Session)
    requires Fresh(p) && Faithful(p, s)
    ensures ShowsLive(p, s)
  {
    hide Shows, HasStep, Live, Resembles, RunWith;
    if s.current.Some? && s.position >= 0 && HasStep(Live(p, s.mutations), s.position) {
      PauseIsLive(p, s.mutations, s.position);
      var live := LivePause(p, s).value.shown;
      assert Shows(Live(p, s.mutations), s.position, live) && Resembles(s.current.value.frame, live.frame);
    }
  }

  /** The display is captured from the state of the live run at this position. */
  ghost predicate CapturesLive(p: Prepared, s: Session, t: Session)
    requires t.position >= 0
  {
    exists shown :: Shows(Live(p, s.mutations), t.position, shown)
                    && t.current == Some(CaptureIn(p, s, Pause(t.position, shown)))
  }

  /**
   * "next" moves to the following step of the live run and captures its state there. When there is no such step, the
   * session is done if that run succeeds; if it fails the request fails and the session stays where it was.
   */
  lemma NextIsLive(p: Prepared, s: Session)
    requires Fresh(p) && Faithful(p, s)
    ensures var t, live := Stepped(p, s), Live(p, s.mutations);
      && Faithful(p, t) && VariablesLive(p, t) && t.mutations == s.mutations
      && (t.current.Some? <==> HasStep(live, s.position + 1))
      && (t.current.Some? ==> t.position == s.position + 1 && CapturesLive(p, s, t))
      && (t.done <==> !HasStep(live, s.position + 1) && !Fails(p, s.mutations))
      && (t.current.None? && !t.done ==> t.position == s.position)
  {
    hide Shows, HasStep, RunWith, Fresh, Resembles, Capture;
    var t, end := Stepped(p, s), RunWith(p, s.mutations, Some(s.position + 1));
    PauseIsLive(p, s.mutations, s.position + 1);
    if end.w.pending.Some? {
      var pause := end.w.pending.value;
      CaptureIsRight(pause, p.bundleFor(pause.shown.frame.ctx.codeAddr, StartingCode(p, s)));
      assert Shows(Live(p, s.mutations), t.position, pause.shown);
      assert t.current == Some(CaptureIn(p, s, Pause(t.position, pause.shown)));
      assert LivePause(p, t) == Some(pause);
    } else if !end.failed {
      NoStepPast(end.w);
    }
  }

  /**
   * Whose variables are shown: the metadata is that of the code running, with the transaction's target to fall back on
   * in a call, and otherwise the code last seen, once there is one; the values are of the storage it runs on.
   */
  lemma ShowsItsOwn(p: Prepared, s: Session)
    requires Fresh(p) && Faithful(p, s) && HasStep(Live(p, s.mutations), s.position + 1)
    ensures s.position >= -1
    ensures var t := Stepped(p, s);
      t.current.Some? &&
      var d, live := t.current.value, RunWith(p, s.mutations, Some(s.position + 1)).w.pending;
      && live.Some? && d.frame == live.value.shown.frame && t.codeAddr == Some(d.frame.ctx.codeAddr)
      && d.bundle == p.bundleFor(d.frame.ctx.codeAddr, if p.isCall || s.codeAddr == None then p.target else s.codeAddr)
      && match d.bundle
         case None => d.storage == [] && d.transient == []
         case Some(b) =>
           && d.storage == Captured(b.persistent, "storage", d.frame.ctx.address, live.value.shown.sto.data)
           && d.transient == Captured(b.transient, "transient", d.frame.ctx.address, live.value.shown.transient)
  {
    hide Shows, HasStep, RunWith, Fresh, Resembles, Captured;
    PauseIsLive(p, s.mutations, s.position + 1);
  }

  lemma CaptureIsRight(pause: Pause, bundle: Option<Bundle>)
    ensures var d := Capture(pause, bundle);
      d.step == pause.step && Resembles(d.frame, pause.shown.frame) && VariablesRight(d, pause.shown)
  {
    hide Captured;
    CaptureKeepsBundle(pause, bundle);
    var d := Capture(pause, bundle);
    assert d.storage[..|d.storage|] == d.storage && d.transient[..|d.transient|] == d.transient;
  }

  /** The hook fired for the last time at the step it counted last. */
  lemma NoStepPast(w: World)
    requires Numbered(w)
    ensures !HasStep(w.trace, w.seen)
  {
  }

  /**
   * A write disturbs no earlier step, and the frame resembles at once that of the live run with the write. On right
   * variables it leaves right variables exactly under the condition a look at the display decides.
   */
  lemma WriteIsLive(p: Prepared, s: Session, r: Request)
    requires Fresh(p) && Faithful(p, s) && !r.NextStep?
    ensures s.current.Some? ==> s.position >= 0 && s.current.value.step == s.position
    ensures var t := Written(p, s, r); Faithful(p, t) && t.position == s.position
    ensures forall n: nat :: n < s.position ==>
      RunWith(p, Written(p, s, r).mutations, Some(n)).w.pending == RunWith(p, s.mutations, Some(n)).w.pending
    ensures Journaled(p, s, r).Some? && VariablesLive(p, s) ==>
      (if LivePause(p, Written(p, s, r)).Some? then
         VariablesLive(p, Written(p, s, r)) <==>
           (r.Storage? ==> WriteShownRight(s.current.value, r, Journaled(p, s, r).value))
       else VariablesLive(p, Written(p, s, r)))
  {
    hide RunWith, Resembles, Applied, Edit, Fresh, MutationOf, VariablesRight, WriteShownRight;
    PositionBound(p, s);
    if Journaled(p, s, r).Some? {
      var m := Journaled(p, s, r).value;
      MutationKind(p.target, s.position, r);
      EditIsInPlace(p, s.mutations, m);
      WriteFollows(s.current.value, LivePause(p, s), LivePause(p, Written(p, s, r)), p.target, r, p.env.maxAlloc);
      forall n: nat | n < s.position
        ensures RunWith(p, s.mutations + [m], Some(n)).w.pending == RunWith(p, s.mutations, Some(n)).w.pending
      {
        EarlierStepsKept(p, s.mutations, m, n);
      }
    }
  }

  /** The pause of the run with one more edit is the pause of the run without it, edited. */
  lemma EditedPause(p: Prepared, s: Session, r: Request, m: Mutation)
    requires Fresh(p) && Faithful(p, s) && !r.NextStep? && s.current.Some?
    requires s.position >= 0 && Journaled(p, s, r) == Some(m)
    ensures Written(p, s, r).mutations == s.mutations + [m] && Written(p, s, r).position == s.position
    ensures s.current.value.step == s.position == m.step
    ensures LivePause(p, Written(p, s, r)) ==
      if LivePause(p, s).None? || Edit(LivePause(p, s).value.shown, m, p.env.maxAlloc).None? then None
      else Some(Pause(s.position, Edit(LivePause(p, s).value.shown, m, p.env.maxAlloc).value))
  {
    hide RunWith, Resembles, Applied, Edit, MutationOf;
    MutationKind(p.target, s.position, r);
    EditIsInPlace(p, s.mutations, m);
  }

  /**
   * Where a memory request lands. It is served while paused if its text parses and a buffer can hold it. Then the
   * display, and the pause of the live run if the host grants the memory, has the bytes of the text at the offset of
   * the request and every other byte as before; nothing else the live pause shows has changed.
   */
  lemma MemoryWriteLands(p: Prepared, s: Session, offset: u64, text: string)
    requires Fresh(p) && Faithful(p, s)
    ensures s.current.Some? ==> s.position >= 0
    ensures var t, parsed := Written(p, s, Memory(offset, text)), DecodeBytes(text);
      if s.current.None? || parsed.None? || |parsed.value| >= 0x20_0000_0000 then t == s
      else
        var data := parsed.value;
        && t.current.Some? && BytesPut(s.current.value.frame.memory, t.current.value.frame.memory, offset,
                                       if InReach(offset, data) then data else [])
        && (LivePause(p, s).None? ==> LivePause(p, t).None?)
        && (LivePause(p, s).Some? ==>
              var was, end := LivePause(p, s).value.shown, offset + |data|;
              && (LivePause(p, t).Some? <==>
                    data == [] || end <= |was.frame.memory| || 32 * Words(end) <= p.env.maxAlloc)
              && (LivePause(p, t).Some? ==>
                    var now := LivePause(p, t).value.shown;
                    && InReach(offset, data) && BytesPut(was.frame.memory, now.frame.memory, offset, data)
                    && now == was.(frame := was.frame.(memory := now.frame.memory))))
  {
    hide RunWith, Faithful, Applied, Edit, MutationOf, DecodeBytes, BytesPut, Fresh;
    PositionBound(p, s);
    var r := Memory(offset, text);
    if s.current.Some? {
      var d, live := s.current.value, LivePause(p, s);
      MemoryRequest(d, if live.Some? then live.value.shown else SomeShown(d), p.target, offset, text, p.env.maxAlloc);
      if Journaled(p, s, r).Some? {
        EditedPause(p, s, r, Journaled(p, s, r).value);
      }
    }
  }

  /** Any state that shows the frame on display. */
  function SomeShown(d: Display): Shown {
    Shown(d.frame, NO_ACCOUNTS, NO_SLOTS, map[])
  }

  /**
   * Where a storage request lands. It is served while paused if it says which contract, slot and value. Then the pause
   * of the live run has that value in that slot of that scope, and every other slot of both scopes as before.
   */
  lemma StorageWriteLands(p: Prepared, s: Session, r: Request)
    requires Fresh(p) && Faithful(p, s) && r.Storage?
    ensures s.current.Some? ==> s.position >= 0
    ensures var t, a := Written(p, s, r), Addressed(p.target, r.address);
      if s.current.None? || a.None? || DecodeHash(r.slot).None? || DecodeHash(r.value).None? then t == s
      else
        && t.current.Some? && t.current.value.frame == s.current.value.frame
        && (LivePause(p, t).Some? <==> LivePause(p, s).Some?)
        && (LivePause(p, s).Some? ==>
              SlotPut(LivePause(p, s).value.shown, LivePause(p, t).value.shown, r.scope == "transient",
                      (a.value, DecodeHash(r.slot).value), DecodeHash(r.value).value))
  {
    hide RunWith, Faithful, Applied, Edit, MutationOf, DecodeHash, ParseAddress, SlotPut, Fresh;
    PositionBound(p, s);
    if s.current.Some? {
      var d, live := s.current.value, LivePause(p, s);
      StorageRequest(d, if live.Some? then live.value.shown else SomeShown(d), p.target, r, p.env.maxAlloc);
      if Journaled(p, s, r).Some? {
        EditedPause(p, s, r, Journaled(p, s, r).value);
      }
    }
  }

  lemma MutationKind(target: Option<Address>, step: nat, r: Request)
    requires !r.NextStep? && MutationOf(target, step, r).Some?
    ensures var m := MutationOf(target, step, r).value; m.step == step && (m.StorageWrite? <==> r.Storage?)
  {
    hide DecodeHash, DecodeBytes, ParseAddress;
  }

  /** One write on a display, beside the same write on the live pause. */
  lemma WriteFollows(d: Display, live: Option<Pause>, after: Option<Pause>, target: Option<Address>, r: Request,
                     limit: M.AllocLimit)
    requires !r.NextStep? && MutationOf(target, d.step, r).Some? && DisplayResembles(d, live, d.step)
    requires var m := MutationOf(target, d.step, r).value;
      if live.None? then after.None?
      else
        var edited := Edit(live.value.shown, m, limit);
        after == if edited.Some? then Some(Pause(m.step, edited.value)) else None
    ensures var m := MutationOf(target, d.step, r).value;
      && m.step == d.step && (m.StorageWrite? <==> r.Storage?)
      && DisplayResembles(Applied(d, r, m), after, d.step)
      && (live.Some? && after.Some? && VariablesRight(d, live.value.shown) ==>
            (VariablesRight(Applied(d, r, m), after.value.shown) <==> (r.Storage? ==> WriteShownRight(d, r, m))))
      && (after.Some? ==> live.Some?)
  {
    hide Resembles, Applied, Edit, MutationOf, VariablesRight, WriteShownRight;
    var m := MutationOf(target, d.step, r).value;
    MutationKind(target, d.step, r);
    AppliedKeepsStep(d, r, m);
    if live.Some? && Edit(live.value.shown, m, limit).Some? {
      AppliedResembles(d, live.value.shown, r, m, limit);
      assert d.frame.ctx == live.value.shown.frame.ctx by { SameContext(d.frame, live.value.shown.frame); }
      if VariablesRight(d, live.value.shown) {
        VariablesRightIff(d, live.value.shown, target, r, limit);
      }
    }
  }

  lemma SameContext(a: Frame, b: Frame)
    requires Resembles(a, b)
    ensures a.ctx == b.ctx
  {
  }

  lemma AppliedKeepsStep(d: Display, r: Request, m: Mutation)
    requires r.Storage? || m.MemoryWrite?
    ensures Applied(d, r, m).step == d.step
  {
    hide Put, NormalizeHex32, DisplayedMemory;
  }

  /** The session after a list of requests. */
  function After(p: Prepared, requests: seq<Request>): (s: Session)
    ensures s.position >= -1 && (s.current.Some? ==> s.position >= 0)
  {
    if requests == [] then NEW_SESSION
    else
      var s, r := After(p, requests[..|requests| - 1]), requests[|requests| - 1];
      if r.NextStep? then Stepped(p, s) else Written(p, s, r)
  }

  /** Every storage write served since the last "next" met the condition for being shown right. */
  ghost predicate AllShownRight(p: Prepared, requests: seq<Request>) {
    requests == [] || requests[|requests| - 1].NextStep? ||
    var s, r := After(p, requests[..|requests| - 1]), requests[|requests| - 1];
    && AllShownRight(p, requests[..|requests| - 1])
    && (r.Storage? && Journaled(p, s, r).Some? && Journaled(p, s, r).value.StorageWrite? ==>
          WriteShownRight(s.current.value, r, Journaled(p, s, r).value))
  }

  /**
   * The main result: after any requests, in any order, the frame on display is that of the live run edited in place;
   * and so are the variables, if every write since the last "next" was one that is shown right.
   */
  lemma {:induction false} SessionIsLive(p: Prepared, requests: seq<Request>)
    requires Fresh(p)
    ensures var s := After(p, requests);
      Faithful(p, s) && ShowsLive(p, s) && (AllShownRight(p, requests) ==> VariablesLive(p, s))
  {
    hide Shows, HasStep, ShowsLive, Faithful, VariablesLive, WriteShownRight, Stepped, Written, Fresh, MutationOf;
    if requests == [] {
      NewIsFaithful(p);
    } else {
      var before, r := After(p, requests[..|requests| - 1]), requests[|requests| - 1];
      SessionIsLive(p, requests[..|requests| - 1]);
      if r.NextStep? {
        NextIsLive(p, before);
      } else {
        WriteIsLive(p, before, r);
        if AllShownRight(p, requests) {
          WriteInSession(p, before, r);
        }
      }
    }
    FaithfulIsLive(p, After(p, requests));
  }

  /** A served write that is shown right, and any other write, leaves right variables right. */
  lemma WriteInSession(p: Prepared, s: Session, r: Request)
    requires Fresh(p) && Faithful(p, s) && !r.NextStep? && VariablesLive(p, s)
    requires s.current.Some? ==> s.position >= 0
    requires r.Storage? && Journaled(p, s, r).Some? && Journaled(p, s, r).value.StorageWrite? ==>
               WriteShownRight(s.current.value, r, Journaled(p, s, r).value)
    ensures VariablesLive(p, Written(p, s, r))
  {
    hide RunWith, VariablesRight, Applied, MutationOf, WriteShownRight, Fresh;
    WriteIsLive(p, s, r);
    if Journaled(p, s, r).Some? {
      MutationKind(p.target, s.position, r);
    }
  }

  lemma NewIsFaithful(p: Prepared)
    ensures Faithful(p, NEW_SESSION) && VariablesLive(p, NEW_SESSION)
  {
  }

  /** With no edits, the (k+1)-th "next" pauses at step k, as long as the run has that many steps. */
  lemma {:induction false} NthNext(p: Prepared, k: nat)
    requires Fresh(p) && forall n: nat :: n <= k ==> HasStep(Live(p, []), n)
    ensures var s := After(p, seq(k + 1, _ => NextStep)); s.position == k && s.current.Some? && s.mutations == []
  {
    hide HasStep, Shows, Stepped, Faithful, VariablesLive;
    var requests := seq(k + 1, _ => NextStep);
    var fewer := requests[..k];
    if k == 0 {
      assert fewer == [];
    } else {
      assert fewer == seq(k, _ => NextStep);
      NthNext(p, k - 1);
    }
    SessionIsLive(p, fewer);
    assert HasStep(Live(p, []), k);
    NextIsLive(p, After(p, fewer));
  }

  // ---------------------------------------------------------------- a run that is never done

  /** PUSH1 0, PUSH1 0, REVERT */
  const REVERTS: Bytes := [0x60, 0x00, 0x60, 0x00, 0xFD]

  /** Whatever is edited on the way, each of the three instructions moves on to the next or fails. */
  lemma RevertsStep(env: Env, hook: Hook, w: World, f: Frame)
    requires f.ctx.code == REVERTS && (f.pc == 0 || f.pc == 2 || f.pc == 4)
    ensures match Step(env, hook, w, f)
      case Done(Next(_, f1)) => f1.ctx == f.ctx && f1.pc == f.pc + 2 && f.pc < 4
      case Done(Stop(_, res)) => !res.status.Success?
      case Invoke(_, _, _) => false
  {
    hide ApplyMutations, OpSstore, OpTstore, OpSelfdestruct, OpCall, OpCreate, Compute, TouchAddress, PushData;
    hide M.Get, MemGas, CopyGas, ToNat, ToU64, ToAddress, Dup, Swap, EmitLog, OpKeccak, OpCopy, OpExtcodecopy;
    hide OpReturndatacopy, OpPop, OpMload, OpMstore, OpMstore8, OpSload, OpTload, OpJump, OpJumpi, OpMcopy;
  }

  lemma {:induction false} RevertsFrame(env: Env, hook: Hook, w: World, f: Frame)
    requires f.ctx.code == REVERTS && (f.pc == 0 || f.pc == 2 || f.pc == 4)
    ensures !RunFrame(env, hook, w, f).res.status.Success?
    decreases 4 - f.pc
  {
    hide Step;
    RevertsStep(env, hook, w, f);
    match Step(env, hook, w, f)
    case Done(Next(w1, f1)) => RevertsFrame(env, hook, w1, f1);
    case Done(Stop(_, _)) =>
    case Invoke(_, _, _) =>
  }

  /**
   * So "done" cannot be promised for every run: whatever is requested, a session of a call to this code is never done,
   * and a "next" past its last step fails for ever.
   */
  lemma RevertedRunIsNeverDone(p: Prepared, requests: seq<Request>)
    requires Fresh(p) && p.job.CallJob? && p.job.cfg.code == REVERTS && !Unaffordable(p.job.cfg, p.w)
    ensures !After(p, requests).done
  {
    hide RunFrame, HasStep, Shows, InitiallyWarm, Burn, ShowsLive, AllShownRight, VariablesLive;
    var s, cfg := After(p, requests), p.job.cfg;
    SessionIsLive(p, requests);
    if cfg.gasLimit > 0 {
      RevertsFrame(p.env, Hook(s.mutations, None), WithValue(cfg, Warmed(p.env, cfg, p.w)),
                   FreshFrame(RootCtx(cfg), cfg.gasLimit));
    }
  }

  // ---------------------------------------------------------------- the session object

  /** The session as the server keeps it: one object per session, updated by each request. */
  class ReplaySession {
    const prepared: Prepared
    var position: int
    var mutations: seq<Mutation>
    var current: Option<Display>
    var codeAddr: Option<Address>
    var done: bool

    ghost function View(): Session
      reads this
    {
      Session(position, mutations, current, codeAddr, done)
    }

    ghost predicate Valid()
      reads this
    {
      Fresh(prepared) && Faithful(prepared, View())
    }

    constructor (prepared: Prepared)
      requires Fresh(prepared)
      ensures Valid() && View() == NEW_SESSION && this.prepared == prepared
    {
      this.prepared := prepared;
      position := -1;
      mutations := [];
      current := None;
      codeAddr := None;
      done := false;
    }

    /** capturePause */
    method CapturePause(pause: Pause, bundle: Option<Bundle>) returns (d: Display)
      ensures d == Capture(pause, bundle)
    {
      hide Captured;
      var f := pause.shown.frame;
      d := Display(pause.step, f, bundle, [], []);
      if bundle.Some? {
        var storage := VariablesForScope(bundle.value.persistent, PERSISTENT, f.ctx.address, pause.shown.sto.data);
        var transient := VariablesForScope(bundle.value.transient, TRANSIENT, f.ctx.address, pause.shown.transient);
        d := d.(storage := storage, transient := transient);
      }
    }

    /** replaySession in step mode. */
    method NextRequest() returns (ok: bool)
      requires Valid()
      modifies this
      ensures Valid() && View() == Stepped(prepared, old(View()))
      ensures ok <==> HasStep(Live(prepared, mutations), old(position) + 1) || !Fails(prepared, mutations)
      ensures current.Some? <==> HasStep(Live(prepared, mutations), old(position) + 1)
      ensures ok ==> (done <==> current.None?)
      ensures !ok ==> position == old(position) && done == old(done) && mutations == old(mutations)
    {
      hide RunJob, Shows, HasStep, Faithful, Fresh, Capture, VariablesLive, Live, Fails;
      assert position >= -1 by { PositionBound(prepared, View()); }
      NextIsLive(prepared, View());
      FailedNext(prepared, View());
      var code := StartingCode(prepared, Session(position, mutations, current, codeAddr, done));
      codeAddr := code;
      current := None;
      var end := RunJob(prepared.env, Hook(mutations, Some(position + 1)), prepared.w, prepared.job);
      if end.w.pending.Some? {
        var pause := end.w.pending.value;
        var display := CapturePause(pause, prepared.bundleFor(pause.shown.frame.ctx.codeAddr, code));
        current := Some(display);
        position := pause.step;
        done := false;
        codeAddr := Some(pause.shown.frame.ctx.codeAddr);
        return true;
      }
      if end.failed {
        return false;
      }
      position := end.w.seen - 1;
      done := true;
      return true;
    }

    /** applyStorageMutationToPause or applyMemoryMutationToPause. */
    method ApplyToPause(d: Display, r: Request, m: Mutation) returns (d1: Display)
      requires r.Storage? || m.MemoryWrite?
      ensures d1 == Applied(d, r, m)
    {
      hide NormalizeHex32, Put, DisplayedMemory;
      if r.Storage? {
        var scope := r.scope;
        if scope == "" {
          scope := PERSISTENT;
        }
        if scope == TRANSIENT {
          var list := PutVariable(d.transient, scope, NormalizeHex32(r.slot), NormalizeHex32(r.value));
          d1 := d.(transient := list);
        } else {
          var list := PutVariable(d.storage, scope, NormalizeHex32(r.slot), NormalizeHex32(r.value));
          d1 := d.(storage := list);
        }
      } else {
        d1 := d.(frame := d.frame.(memory := DisplayedMemory(d.frame.memory, m.offset, m.data)));
      }
    }

    /** writeStorage and writeMemory: refused unless paused and well-formed, otherwise journaled under the position. */
    method WriteRequest(r: Request) returns (ok: bool)
      requires Valid() && !r.NextStep?
      modifies this
      ensures Valid() && View() == Written(prepared, old(View()), r) && ShowsLive(prepared, View())
      ensures old(position) >= 0 || old(current).None?
      ensures ok <==> old(current).Some? && WellFormed(prepared, r)
      ensures ok <==> mutations != old(mutations)
      ensures ok && r.Memory? && InReach(r.offset, DecodeBytes(r.data).value) ==>
        BytesPut(old(current).value.frame.memory, current.value.frame.memory, r.offset, DecodeBytes(r.data).value)
    {
      hide Faithful, ShowsLive, Applied, Fresh, VariablesLive, MutationOf, RunWith, BytesPut, DecodeBytes, DecodeHash;
      hide ParseAddress;
      PositionBound(prepared, View());
      WellFormedServed(prepared, View(), r);
      WriteIsLive(prepared, View(), r);
      FaithfulIsLive(prepared, Written(prepared, View(), r));
      if current.None? {
        return false;
      }
      var m := MutationOf(prepared.target, position, r);
      if m.None? {
        return false;
      }
      MutationKind(prepared.target, position, r);
      mutations := mutations + [m.value];
      var display := ApplyToPause(current.value, r, m.value);
      current := Some(display);
      return true;
    }
  }

  /** Every field of the request parses, and it says which contract or names data a buffer can hold. */
  predicate WellFormed(p: Prepared, r: Request)
    requires !r.NextStep?
  {
    match r
    case Storage(address, _, slot, value) =>
      Addressed(p.target, address).Some? && DecodeHash(slot).Some? && DecodeHash(value).Some?
    case Memory(_, text) => DecodeBytes(text).Some? && |DecodeBytes(text).value| < 0x20_0000_0000
  }

  lemma WellFormedServed(p: Prepared, s: Session, r: Request)
    requires Fresh(p) && Faithful(p, s) && !r.NextStep?
    ensures s.position >= 0 || s.current.None?
    ensures s.current.Some? ==> (MutationOf(p.target, s.position, r).Some? <==> WellFormed(p, r))
    ensures s.current.Some? && WellFormed(p, r) && r.Memory? && InReach(r.offset, DecodeBytes(r.data).value) ==>
      BytesPut(s.current.value.frame.memory, Written(p, s, r).current.value.frame.memory, r.offset,
               DecodeBytes(r.data).value)
  {
    hide RunWith, Faithful, Applied, Edit, MutationOf, DecodeBytes, DecodeHash, ParseAddress, BytesPut, InReach, Fresh;
    PositionBound(p, s);
    if s.current.Some? {
      var d := s.current.value;
      match r
      case Storage(_, _, _, _) => StorageRequest(d, SomeShown(d), p.target, r, p.env.maxAlloc);
      case Memory(offset, text) =>
        MemoryRequest(d, SomeShown(d), p.target, offset, text, p.env.maxAlloc);
        MemoryWriteLands(p, s, offset, text);
    }
  }

  /** The branch of `Stepped` a "next" takes. */
  lemma FailedNext(p: Prepared, s: Session)
    requires Fresh(p) && Faithful(p, s)
    ensures s.position >= -1
    ensures var end := RunWith(p, s.mutations, Some(s.position + 1));
      end.w.pending.None? && end.failed
      <==> !HasStep(Live(p, s.mutations), s.position + 1) && Fails(p, s.mutations)
  {
    hide Shows, HasStep, RunJob, Fresh, Resembles;
    PauseIsLive(p, s.mutations, s.position + 1);
  }
}
