/**
 * ksnoop's shadow call stack: kretprobes do not know which function returns, so the entry probe
 * pushes the function address and the return probe pops it. Slots are zeroed only on push, so
 * that the slot above the top remembers the callee that returned last.
 */
module KsnoopStack {
  import opened Machine
  import opened BpfMap

  const FUNC_MAX_STACK_DEPTH: nat := 16
  const MAX_TASKS: nat := 2048

  /** `struct func_stack`. */
  datatype Stack = Stack(ips: seq<u64>, depth: nat)

  ghost predicate Valid(st: Stack) { |st.ips| == FUNC_MAX_STACK_DEPTH && st.depth < FUNC_MAX_STACK_DEPTH }

  const EMPTY := Stack([0, 0, 0, 0, 0, 0, 0, 0, 0, 0, 0, 0, 0, 0, 0, 0], 0)

  datatype Op = Call(ip: u64) | Ret

  /** What a probe learns: the function's address and, depending on the side, its caller or its last callee. */
  datatype Seen = Nothing | Seen(ip: u64, lastIp: u64)

  function Shadow(st: Stack, op: Op): Stack
    requires Valid(st)
  {
    match op
    case Call(ip) =>
      if st.depth >= FUNC_MAX_STACK_DEPTH - 1 then st
      else Stack(st.ips[st.depth := ip][st.depth + 1 := 0], st.depth + 1)
    case Ret => if st.depth == 0 then st else st.(depth := st.depth - 1)
  }

  function Report(st: Stack, op: Op): Seen
    requires Valid(st)
  {
    match op
    case Call(ip) =>
      if st.depth >= FUNC_MAX_STACK_DEPTH - 1 then Nothing
      else Seen(ip, if st.depth == 0 then 0 else st.ips[st.depth - 1])
    case Ret => if st.depth == 0 then Nothing else Seen(st.ips[st.depth - 1], st.ips[st.depth])
  }

  /** The stack part of `get_trace`, on the in-kernel array. */
  class FuncStack {
    const ips: array<u64>
    var stackDepth: u8

    constructor ()
      ensures fresh(ips) && Inv() && View() == EMPTY
    {
      ips := new u64[FUNC_MAX_STACK_DEPTH](_ => 0);
      stackDepth := 0;
      new;
      assert ips[..] == EMPTY.ips;
    }

    ghost predicate Inv()
      reads this
    {
      ips.Length == FUNC_MAX_STACK_DEPTH && stackDepth < FUNC_MAX_STACK_DEPTH
    }

    function View(): Stack
      reads this, ips
    {
      Stack(ips[..], stackDepth)
    }

    method OnEntry(ip: u64) returns (seen: Seen)
      requires Inv()
      modifies this, ips
      ensures Inv()
      ensures View() == Shadow(old(View()), Call(ip))
      ensures seen == Report(old(View()), Call(ip))
    {
      var depth := stackDepth;
      if depth >= FUNC_MAX_STACK_DEPTH - 1 { return Nothing; }
      var lastIp: u64 := 0;
      var lastDepth: u8 := (depth - 1) % 0x100; // 255 on an empty stack
      if lastDepth < FUNC_MAX_STACK_DEPTH { lastIp := ips[lastDepth]; }
      ips[depth] := ip;
      depth := (depth + 1) % FUNC_MAX_STACK_DEPTH; // & FUNC_STACK_DEPTH_MASK
      stackDepth := depth;
      if depth < FUNC_MAX_STACK_DEPTH { ips[depth] := 0; }
      seen := Seen(ip, lastIp);
    }

    method OnReturn() returns (seen: Seen)
      requires Inv()
      modifies this
      ensures Inv()
      ensures View() == Shadow(old(View()), Ret)
      ensures seen == Report(old(View()), Ret)
    {
      var depth := stackDepth;
      if depth == 0 || depth >= FUNC_MAX_STACK_DEPTH { return Nothing; }
      var lastIp := ips[depth];
      depth := (depth - 1) % FUNC_MAX_STACK_DEPTH;
      var ip := ips[depth];
      stackDepth := depth;
      seen := Seen(ip, lastIp);
    }
  }

  // ---------- the real call stack ----------

  /** An active traced function and the traced callee that last returned directly to it (0: none). */
  datatype Frame = Frame(ip: u64, lastCallee: u64)

  function RealStep(frames: seq<Frame>, op: Op): seq<Frame> {
    match op
    case Call(ip) => frames + [Frame(ip, 0)]
    case Ret =>
      var n := |frames|;
      if n == 0 then []
      else if n == 1 then []
      else frames[..n - 2] + [Frame(frames[n - 2].ip, frames[n - 1].ip)]
  }

  function RealSeen(frames: seq<Frame>, op: Op): Seen {
    match op
    case Call(ip) => Seen(ip, if frames == [] then 0 else frames[|frames| - 1].ip)
    case Ret => if frames == [] then Nothing else Seen(frames[|frames| - 1].ip, frames[|frames| - 1].lastCallee)
  }

  function ShadowRun(ops: seq<Op>): (st: Stack)
    ensures Valid(st)
  {
    if ops == [] then EMPTY else Shadow(ShadowRun(ops[..|ops| - 1]), ops[|ops| - 1])
  }

  function RealRun(ops: seq<Op>): seq<Frame> {
    if ops == [] then [] else RealStep(RealRun(ops[..|ops| - 1]), ops[|ops| - 1])
  }

  ghost predicate Mirrors(st: Stack, frames: seq<Frame>)
    requires Valid(st)
  {
    && st.depth == |frames|
    && (forall i :: 0 <= i < |frames| ==> st.ips[i] == frames[i].ip)
    && (frames != [] ==> st.ips[|frames|] == frames[|frames| - 1].lastCallee)
  }

  lemma StepMirrors(st: Stack, frames: seq<Frame>, op: Op)
    requires Valid(st) && Mirrors(st, frames)
    ensures Valid(Shadow(st, op))
    ensures |RealStep(frames, op)| < FUNC_MAX_STACK_DEPTH ==> Mirrors(Shadow(st, op), RealStep(frames, op))
    ensures |RealStep(frames, op)| < FUNC_MAX_STACK_DEPTH ==> Report(st, op) == RealSeen(frames, op)
  {}

  /** At most 15 traced frames are ever active. */
  ghost predicate NeverDeep(ops: seq<Op>) {
    forall k :: 0 <= k <= |ops| ==> |RealRun(ops[..k])| < FUNC_MAX_STACK_DEPTH
  }

  ghost predicate AlwaysMirrors(ops: seq<Op>) {
    forall k :: 0 <= k <= |ops| ==> Mirrors(ShadowRun(ops[..k]), RealRun(ops[..k]))
  }

  lemma {:induction false} ShallowRunsMirror(ops: seq<Op>)
    requires NeverDeep(ops)
    ensures Mirrors(ShadowRun(ops), RealRun(ops))
  {
    hide Shadow, RealStep, Mirrors;
    if ops == [] {
      EmptyMirrors();
    } else {
      var n := |ops| - 1;
      assert forall k :: 0 <= k <= n ==> ops[..n][..k] == ops[..k];
      ShallowRunsMirror(ops[..n]);
      assert ops[..n + 1] == ops;
      StepMirrors(ShadowRun(ops[..n]), RealRun(ops[..n]), ops[n]);
    }
  }

  lemma EmptyMirrors()
    ensures Mirrors(EMPTY, [])
  {}

  /**
   * The shadow stack is the real traced call stack at every moment of a run exactly when no more
   * than 15 traced frames are ever active.
   */
  lemma ShadowIsRealIffShallow(ops: seq<Op>)
    ensures AlwaysMirrors(ops) <==> NeverDeep(ops)
  {
    if NeverDeep(ops) {
      forall k | 0 <= k <= |ops| ensures Mirrors(ShadowRun(ops[..k]), RealRun(ops[..k])) {
        assert forall i :: 0 <= i <= k ==> ops[..k][..i] == ops[..i];
        ShallowRunsMirror(ops[..k]);
      }
    }
  }

  /**
   * In such a run every return pops the address of the function that is returning, together with
   * the callee that last returned to it, and every entry sees its caller.
   */
  lemma ProbesSeeTheTruth(ops: seq<Op>, op: Op)
    requires NeverDeep(ops + [op])
    ensures Report(ShadowRun(ops), op) == RealSeen(RealRun(ops), op)
  {
    hide Shadow, RealStep, Mirrors, Report, RealSeen;
    assert (ops + [op])[..|ops|] == ops;
    assert forall k :: 0 <= k <= |ops| ==> (ops + [op])[..k] == ops[..k];
    ShallowRunsMirror(ops);
    assert (ops + [op])[..|ops| + 1] == ops + [op];
    StepMirrors(ShadowRun(ops), RealRun(ops), op);
  }

  /** The sixteenth frame is not pushed but still popped: its return is reported as its caller's. */
  lemma SixteenthReturnIsMistaken(ops: seq<Op>, ip: u64)
    requires NeverDeep(ops) && |RealRun(ops)| == FUNC_MAX_STACK_DEPTH - 1
    ensures Report(ShadowRun(ops), Call(ip)) == Nothing
    ensures var st := ShadowRun(ops + [Call(ip)]);
            Report(st, Ret).Seen? && Report(st, Ret).ip == RealRun(ops)[FUNC_MAX_STACK_DEPTH - 2].ip
    ensures RealSeen(RealRun(ops + [Call(ip)]), Ret) == Seen(ip, 0)
  {
    ShallowRunsMirror(ops);
    assert (ops + [Call(ip)])[..|ops|] == ops;
  }

  // ---------- many tasks ----------

  datatype Event = Event(task: u64, op: Op)

  /** `ksnoop_func_stack`, filled on first use with BPF_NOEXIST; a task that finds it full is ignored. */
  function TaskStep(stacks: map<u64, Stack>, e: Event): map<u64, Stack>
    requires forall t :: t in stacks ==> Valid(stacks[t])
  {
    var s := TryInit(stacks, MAX_TASKS, e.task, EMPTY);
    if e.task in s then s[e.task := Shadow(s[e.task], e.op)] else s
  }

  function TaskRun(es: seq<Event>): (stacks: map<u64, Stack>)
    ensures forall t :: t in stacks ==> Valid(stacks[t])
  {
    if es == [] then map[] else TaskStep(TaskRun(es[..|es| - 1]), es[|es| - 1])
  }

  /** One task's operations. */
  function Project(es: seq<Event>, task: u64): seq<Op> {
    if es == [] then []
    else
      var before := Project(es[..|es| - 1], task);
      if es[|es| - 1].task == task then before + [es[|es| - 1].op] else before
  }

  ghost predicate Separate(stacks: map<u64, Stack>, es: seq<Event>) {
    && |stacks| <= MAX_TASKS
    && (forall t :: t in stacks ==> stacks[t] == ShadowRun(Project(es, t)))
    && (|stacks| < MAX_TASKS ==> forall t :: t !in stacks ==> Project(es, t) == [])
  }

  lemma ProjectStep(es: seq<Event>, e: Event, t: u64)
    ensures Project(es + [e], t) == if t == e.task then Project(es, t) + [e.op] else Project(es, t)
  {}

  lemma ShadowAppend(ops: seq<Op>, op: Op)
    ensures ShadowRun(ops + [op]) == Shadow(ShadowRun(ops), op)
  {}

  lemma TaskStepSize(stacks: map<u64, Stack>, e: Event)
    requires |stacks| <= MAX_TASKS && forall t :: t in stacks ==> Valid(stacks[t])
    ensures |TaskStep(stacks, e)| <= MAX_TASKS
    ensures |TaskStep(stacks, e)| < MAX_TASKS ==> |stacks| < MAX_TASKS && e.task in TaskStep(stacks, e)
  {}

  lemma TaskStepValue(stacks: map<u64, Stack>, e: Event, t: u64)
    requires forall t :: t in stacks ==> Valid(stacks[t])
    ensures var stacks' := TaskStep(stacks, e);
            && (t in stacks ==>
                  && t in stacks'
                  && stacks'[t] == if t == e.task then Shadow(stacks[t], e.op) else stacks[t])
            && (t !in stacks && t in stacks' ==>
                  t == e.task && |stacks| < MAX_TASKS && stacks'[t] == Shadow(EMPTY, e.op))
  {
    hide Shadow, Valid;
  }

  lemma StepSeparates(stacks: map<u64, Stack>, es: seq<Event>, e: Event)
    requires Separate(stacks, es) && forall t :: t in stacks ==> Valid(stacks[t])
    ensures Separate(TaskStep(stacks, e), es + [e])
  {
    hide Shadow, Project, Valid, TaskStep;
    TaskStepSize(stacks, e);
    forall t
      ensures t in TaskStep(stacks, e) ==> TaskStep(stacks, e)[t] == ShadowRun(Project(es + [e], t))
      ensures |TaskStep(stacks, e)| < MAX_TASKS && t !in TaskStep(stacks, e) ==> Project(es + [e], t) == []
    {
      ProjectStep(es, e, t);
      TaskStepValue(stacks, e, t);
      ShadowAppend(Project(es, t), e.op);
    }
  }

  /**
   * For every interleaving, the stack kept for a task is the one its own operations give; a task without one
   * means the map is full.
   */
  lemma {:induction false} TasksAreIndependent(es: seq<Event>)
    ensures Separate(TaskRun(es), es)
  {
    hide TaskStep, Separate;
    if es == [] {
      SeparateInitially();
    } else {
      var n := |es| - 1;
      TasksAreIndependent(es[..n]);
      StepSeparates(TaskRun(es[..n]), es[..n], es[n]);
      assert es[..n] + [es[n]] == es;
    }
  }

  lemma SeparateInitially()
    ensures Separate(map[], [])
  {}

  /** So in any interleaving a shallow task's shadow stack is its real one. */
  lemma InterleavedStacksMirror(es: seq<Event>, task: u64)
    requires task in TaskRun(es) && NeverDeep(Project(es, task))
    ensures Mirrors(TaskRun(es)[task], RealRun(Project(es, task)))
  {
    TasksAreIndependent(es);
    ShallowRunsMirror(Project(es, task));
  }
}
