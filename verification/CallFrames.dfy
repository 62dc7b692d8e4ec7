/** The debugger's list of open call frames, rebuilt from step events alone. */
module CallFrames {
  import opened Base
  import opened Machine

  /** Root, call kinds as the classifier names them, and the placeholder for frames never seen opening. */
  datatype CallType = RootFrame | Unknown | Labelled(op: byte)

  /** CallFrameInfo: everything is derived from the frame's context except `callType`. */
  datatype CallFrame = CallFrame(
    depth: nat, contract: Address, code: Address, caller: Address, callType: CallType,
    selector: Bytes, inputSize: nat, input: Bytes, value: nat)

  const NO_ADDRESS: Address := Zeros(20)

  function NewFrame(ctx: Ctx, depth: nat, callType: CallType): CallFrame {
    CallFrame(depth, ctx.address, ctx.codeAddr, ctx.caller, callType,
              if |ctx.input| >= 4 then ctx.input[..4] else [], |ctx.input|, ctx.input, ctx.value)
  }

  /** mergeFrame: empty or zero fields of the new reading keep the old one. */
  function MergeFrame(prev: CallFrame, ctx: Ctx, depth: nat): CallFrame {
    var next := NewFrame(ctx, depth, prev.callType);
    next.(contract := if next.contract == NO_ADDRESS then prev.contract else next.contract,
          code := if next.code == NO_ADDRESS then prev.code else next.code,
          caller := if next.caller == NO_ADDRESS then prev.caller else next.caller,
          selector := if next.selector == [] then prev.selector else next.selector,
          inputSize := if next.inputSize == 0 then prev.inputSize else next.inputSize,
          input := if next.input == [] then prev.input else next.input,
          value := if next.value == 0 then prev.value else next.value)
  }

  /** Frames `from` to `to`, all read from the same context. */
  function Opened(ctx: Ctx, from: nat, to: nat, callType: CallType): (r: seq<CallFrame>)
    requires from <= to + 1
    ensures |r| == to + 1 - from
    ensures forall i :: 0 <= i < |r| ==> r[i] == NewFrame(ctx, from + i, callType)
  {
    seq(to + 1 - from, i requires 0 <= i => NewFrame(ctx, from + i, callType))
  }

  /** What one step event does to the list. */
  function Update(frames: seq<CallFrame>, ctx: Ctx, op: byte): seq<CallFrame> {
    if frames == [] then [NewFrame(ctx, 0, RootFrame)] + Opened(ctx, 1, ctx.depth, Unknown)
    else if ctx.depth >= |frames| then frames + Opened(ctx, |frames|, ctx.depth, Labelled(op))
    else frames[..ctx.depth] + [MergeFrame(frames[ctx.depth], ctx, ctx.depth)]
  }

  /** updateCallFrames, with its loops and its in-place truncation. */
  method UpdateCallFrames(frames: seq<CallFrame>, ctx: Ctx, op: byte) returns (r: seq<CallFrame>)
    ensures r == Update(frames, ctx, op)
  {
    var depth := ctx.depth;
    if |frames| == 0 {
      r := [NewFrame(ctx, 0, RootFrame)];
      for d := 1 to depth + 1
        invariant r == [NewFrame(ctx, 0, RootFrame)] + Opened(ctx, 1, d - 1, Unknown)
      {
        r := r + [NewFrame(ctx, d, Unknown)];
      }
      return;
    }
    var currentTop := |frames| - 1;
    if depth == currentTop {
      r := frames[currentTop := MergeFrame(frames[currentTop], ctx, depth)];
    } else if depth > currentTop {
      r := frames;
      for d := currentTop + 1 to depth + 1
        invariant r == frames + Opened(ctx, |frames|, d - 1, Labelled(op))
      {
        r := r + [NewFrame(ctx, d, Labelled(op))];
      }
    } else {
      r := frames[..depth + 1];
      r := r[depth := MergeFrame(r[depth], ctx, depth)];
    }
  }

  /** The list after every event of a trace that reached the hook. */
  function Mirror(trace: seq<Event>): seq<CallFrame> {
    if trace == [] then []
    else
      var before := Mirror(trace[..|trace| - 1]);
      var f := trace[|trace| - 1].shown.frame;
      if trace[|trace| - 1].step.None? || f.pc >= |f.ctx.code| then before
      else Update(before, f.ctx, f.ctx.code[f.pc])
  }

  /** One entry for each open frame, describing that frame. */
  ghost predicate Describes(frames: seq<CallFrame>, active: seq<Ctx>) {
    |frames| == |active| && forall i :: 0 <= i < |active| ==> frames[i] == NewFrame(active[i], i, frames[i].callType)
  }

  /** Which is to say: whose code runs on whose storage, called by whom, with what value and input. */
  lemma DescribesFields(frames: seq<CallFrame>, active: seq<Ctx>, i: nat)
    requires Describes(frames, active) && i < |active|
    ensures var entry, ctx := frames[i], active[i];
      && entry.depth == i && entry.contract == ctx.address && entry.code == ctx.codeAddr && entry.caller == ctx.caller
      && entry.value == ctx.value && entry.input == ctx.input && entry.inputSize == |ctx.input|
      && entry.selector == (if |ctx.input| < 4 then [] else ctx.input[..4])
  {
  }

  /** The label of a frame: the root, the opcode it was opened by, or none for one never seen opening. */
  lemma LabelsFollow(frames: seq<CallFrame>, ctx: Ctx, op: byte, i: nat)
    requires i <= ctx.depth
    ensures |Update(frames, ctx, op)| == ctx.depth + 1
    ensures Update(frames, ctx, op)[i].callType ==
      if i < |frames| then frames[i].callType
      else if frames != [] then Labelled(op)
      else if i == 0 then RootFrame else Unknown
  {
  }

  /** An event of the innermost of `active`, seen when the list describes `last`. */
  lemma UpdateFollows(frames: seq<CallFrame>, last: seq<Ctx>, active: seq<Ctx>, op: byte)
    requires Describes(frames, last)
    requires active != [] && active[|active| - 1].depth == |active| - 1
    requires active <= last || active[..|active| - 1] == last
    ensures Describes(Update(frames, active[|active| - 1], op), active)
  {
  }
}
